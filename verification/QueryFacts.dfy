/**
 What the query parser accepts, described by where the records of a message start and end and
 without the parser's running state: every record of either section counts, known type or not.
 */
module QueryFacts {
  import opened Basics
  import opened Names
  import opened NameCodec
  import opened Wire
  import opened QueryParser

  // ---------------------------------------------------------------------------
  // Records one behind the other
  // ---------------------------------------------------------------------------

  /** From mark to mark there is one record each. */
  predicate Section(spans: (nat, nat) -> bool, marks: seq<nat>) {
    |marks| >= 1 && forall i :: 0 <= i < |marks| - 1 ==> spans(marks[i], marks[i + 1])
  }

  /** The marks of `n` records from `off` to `end`. */
  predicate Covers(marks: seq<nat>, off: nat, n: nat, end: nat) {
    |marks| == n + 1 && marks[0] == off && marks[n] == end
  }

  lemma {:induction false} SectionTail(spans: (nat, nat) -> bool, marks: seq<nat>)
    requires Section(spans, marks) && |marks| > 1
    ensures spans(marks[0], marks[1]) && Section(spans, marks[1..])
  {
    var rest := marks[1..];
    forall i | 0 <= i < |rest| - 1 ensures spans(rest[i], rest[i + 1]) {
      assert spans(marks[i + 1], marks[i + 2]);
    }
  }

  lemma {:induction false} SectionCons(spans: (nat, nat) -> bool, off: nat, rest: seq<nat>)
    requires Section(spans, rest) && spans(off, rest[0])
    ensures Section(spans, [off] + rest)
  {
    var marks := [off] + rest;
    forall i | 0 <= i < |marks| - 1 ensures spans(marks[i], marks[i + 1]) {
      if i > 0 {
        assert spans(rest[i - 1], rest[i]);
      }
    }
  }

  /** Every record ends behind its start, in one place only. */
  ghost predicate Advances(spans: (nat, nat) -> bool) {
    && (forall a: nat, b: nat :: spans(a, b) ==> a < b)
    && (forall a: nat, b: nat, c: nat :: spans(a, b) && spans(a, c) ==> b == c)
  }

  lemma {:induction false} MarksRise(spans: (nat, nat) -> bool, marks: seq<nat>, i: nat, j: nat)
    requires Advances(spans) && Section(spans, marks) && i < j < |marks|
    ensures marks[i] < marks[j]
    decreases j
  {
    assert spans(marks[j - 1], marks[j - 1 + 1]);
    if i < j - 1 {
      MarksRise(spans, marks, i, j - 1);
    }
  }

  /** There is one way only to cut a section into records. */
  lemma {:induction false} SectionsAgree(spans: (nat, nat) -> bool, a: seq<nat>, b: seq<nat>)
    requires Advances(spans) && Section(spans, a) && Section(spans, b) && |a| == |b| && a[0] == b[0]
    ensures a == b
    decreases |a|
  {
    if |a| > 1 {
      SectionTail(spans, a);
      SectionTail(spans, b);
      SectionsAgree(spans, a[1..], b[1..]);
      assert a == [a[0]] + a[1..] && b == [b[0]] + b[1..];
    }
  }

  // ---------------------------------------------------------------------------
  // A record that may stand in a section once
  // ---------------------------------------------------------------------------

  /** Some record of the section is of the kind in question. */
  predicate Among(kind: nat -> bool, marks: seq<nat>) {
    exists i :: 0 <= i < |marks| - 1 && kind(marks[i])
  }

  /** Every record of the kind says `after`; without one, nothing is said. The others may be anything. */
  predicate SaysOnly<A(==)>(kind: nat -> bool, says: (nat, A) -> bool, marks: seq<nat>, after: Option<A>) {
    && (forall i :: 0 <= i < |marks| - 1 && kind(marks[i]) ==> after.Some? && says(marks[i], after.value))
    && (after.Some? ==> Among(kind, marks))
  }

  /** What a section adds to what was said before it. */
  predicate Adds<A(==)>(kind: nat -> bool, says: (nat, A) -> bool, marks: seq<nat>, before: Option<A>, after: Option<A>) {
    if before.Some? then after == before && !Among(kind, marks) else SaysOnly(kind, says, marks, after)
  }

  /** What one record adds: at most one of the kind is allowed. */
  predicate AddsOne<A(==)>(kind: nat -> bool, says: (nat, A) -> bool, off: nat, before: Option<A>, after: Option<A>) {
    if kind(off) then before.None? && after.Some? && says(off, after.value) else after == before
  }

  lemma {:induction false} AmongCons(kind: nat -> bool, off: nat, rest: seq<nat>)
    requires rest != []
    ensures Among(kind, [off] + rest) <==> kind(off) || Among(kind, rest)
  {
    var marks := [off] + rest;
    if kind(off) {
      assert kind(marks[0]);
    }
    if Among(kind, rest) {
      var i :| 0 <= i < |rest| - 1 && kind(rest[i]);
      assert kind(marks[i + 1]);
    }
    if Among(kind, marks) {
      var i :| 0 <= i < |marks| - 1 && kind(marks[i]);
      assert i > 0 ==> kind(rest[i - 1]);
    }
  }

  lemma {:induction false} SaysCons<A>(kind: nat -> bool, says: (nat, A) -> bool, off: nat, rest: seq<nat>, after: Option<A>)
    requires rest != [] && !kind(off)
    ensures SaysOnly(kind, says, [off] + rest, after) <==> SaysOnly(kind, says, rest, after)
  {
    var marks := [off] + rest;
    AmongCons(kind, off, rest);
    if SaysOnly(kind, says, rest, after) {
      forall i | 0 <= i < |marks| - 1 && kind(marks[i]) ensures after.Some? && says(marks[i], after.value) {
        assert kind(rest[i - 1]);
      }
    }
    if SaysOnly(kind, says, marks, after) {
      forall i | 0 <= i < |rest| - 1 && kind(rest[i]) ensures after.Some? && says(rest[i], after.value) {
        assert kind(marks[i + 1]);
      }
    }
  }

  /** What a record of the kind says names its place, so that no two records say the same. */
  ghost predicate Placed<A(!new)>(spans: (nat, nat) -> bool, says: (nat, A) -> bool) {
    && Advances(spans)
    && (forall a: nat, b: nat, x: A :: says(a, x) && says(b, x) ==> a == b)
  }

  lemma {:induction false} SaidOnce<A(!new)>(kind: nat -> bool, says: (nat, A) -> bool, spans: (nat, nat) -> bool,
                                             off: nat, rest: seq<nat>, after: Option<A>)
    requires Placed(spans, says) && Section(spans, [off] + rest) && rest != [] && kind(off)
    ensures SaysOnly(kind, says, [off] + rest, after) <==> after.Some? && says(off, after.value) && !Among(kind, rest)
  {
    var marks := [off] + rest;
    AmongCons(kind, off, rest);
    if SaysOnly(kind, says, marks, after) {
      assert kind(marks[0]);
      if Among(kind, rest) {
        var i :| 0 <= i < |rest| - 1 && kind(rest[i]);
        assert kind(marks[i + 1]);
        MarksRise(spans, marks, 0, i + 1);
        assert false;
      }
    }
    if after.Some? && says(off, after.value) && !Among(kind, rest) {
      forall i | 0 <= i < |marks| - 1 && kind(marks[i]) ensures says(marks[i], after.value) {
        assert i > 0 ==> kind(rest[i - 1]);
      }
    }
  }

  lemma {:induction false} NeverTwice<A(!new)>(kind: nat -> bool, says: (nat, A) -> bool, spans: (nat, nat) -> bool,
                                               marks: seq<nat>, after: Option<A>, i: nat, j: nat)
    requires Placed(spans, says) && Section(spans, marks) && i < j < |marks| - 1 && kind(marks[i]) && kind(marks[j])
    ensures !SaysOnly(kind, says, marks, after)
  {
    MarksRise(spans, marks, i, j);
  }

  /** A section adds what its first record adds and then what the others add. */
  lemma {:induction false} AddsCons<A(!new)>(kind: nat -> bool, says: (nat, A) -> bool, spans: (nat, nat) -> bool, off: nat, rest: seq<nat>,
                                             before: Option<A>, between: Option<A>, after: Option<A>)
    requires Placed(spans, says) && Section(spans, [off] + rest) && rest != []
    requires AddsOne(kind, says, off, before, between) && Adds(kind, says, rest, between, after)
    ensures Adds(kind, says, [off] + rest, before, after)
  {
    AmongCons(kind, off, rest);
    if kind(off) {
      SaidOnce(kind, says, spans, off, rest, after);
    } else {
      SaysCons(kind, says, off, rest, after);
    }
  }

  lemma {:induction false} AddsSplit<A(!new)>(kind: nat -> bool, says: (nat, A) -> bool, spans: (nat, nat) -> bool, off: nat, rest: seq<nat>,
                                              before: Option<A>, after: Option<A>) returns (between: Option<A>)
    requires Placed(spans, says) && Section(spans, [off] + rest) && rest != []
    requires Adds(kind, says, [off] + rest, before, after)
    ensures AddsOne(kind, says, off, before, between) && Adds(kind, says, rest, between, after)
  {
    AmongCons(kind, off, rest);
    if kind(off) {
      SaidOnce(kind, says, spans, off, rest, after);
      between := after;
    } else {
      SaysCons(kind, says, off, rest, after);
      between := before;
    }
  }

  // ---------------------------------------------------------------------------
  // A record whose last occurrence counts
  // ---------------------------------------------------------------------------

  /** No record of the section is refused, and `after` is what the last one to give anything gives. */
  predicate LastGiven<A(==)>(gives: nat -> Result<Option<A>, WireFailure>, marks: seq<nat>, before: Option<A>, after: Option<A>) {
    && (forall i :: 0 <= i < |marks| - 1 ==> gives(marks[i]).Ok?)
    && (|| (after == before && forall i :: 0 <= i < |marks| - 1 ==> gives(marks[i]) == Ok(None))
        || (&& after.Some?
            && exists i :: 0 <= i < |marks| - 1 && gives(marks[i]) == Ok(after)
                           && forall j :: i < j < |marks| - 1 ==> gives(marks[j]) == Ok(None)))
  }

  /** What one record makes of what was given before. */
  predicate GivesOne<A(==)>(gives: nat -> Result<Option<A>, WireFailure>, off: nat, before: Option<A>, after: Option<A>) {
    gives(off).Ok? && after == if gives(off).value.Some? then gives(off).value else before
  }

  lemma {:induction false} GivenCons<A>(gives: nat -> Result<Option<A>, WireFailure>, off: nat, rest: seq<nat>,
                                        before: Option<A>, between: Option<A>, after: Option<A>)
    requires rest != [] && GivesOne(gives, off, before, between)
    ensures LastGiven(gives, [off] + rest, before, after) <==> LastGiven(gives, rest, between, after)
  {
    var marks := [off] + rest;
    assert marks[0] == off && forall i :: 0 < i < |marks| ==> marks[i] == rest[i - 1];
    assert forall i :: 0 <= i < |rest| ==> rest[i] == marks[i + 1];
    if LastGiven(gives, rest, between, after) {
      GivenConsForth(gives, off, rest, before, between, after);
    }
    if LastGiven(gives, marks, before, after) {
      GivenConsBack(gives, off, rest, before, between, after);
    }
  }

  lemma {:induction false} GivenConsForth<A>(gives: nat -> Result<Option<A>, WireFailure>, off: nat, rest: seq<nat>,
                                             before: Option<A>, between: Option<A>, after: Option<A>)
    requires rest != [] && GivesOne(gives, off, before, between) && LastGiven(gives, rest, between, after)
    ensures LastGiven(gives, [off] + rest, before, after)
  {
    var marks := [off] + rest;
    assert marks[0] == off && forall i :: 0 < i < |marks| ==> marks[i] == rest[i - 1];
    if i :| 0 <= i < |rest| - 1 && gives(rest[i]) == Ok(after) && after.Some? && forall j :: i < j < |rest| - 1 ==> gives(rest[j]) == Ok(None) {
      assert gives(marks[i + 1]) == Ok(after);
    } else if gives(off).value.Some? {
      assert gives(marks[0]) == Ok(after);
    }
  }

  lemma {:induction false} GivenConsBack<A>(gives: nat -> Result<Option<A>, WireFailure>, off: nat, rest: seq<nat>,
                                            before: Option<A>, between: Option<A>, after: Option<A>)
    requires rest != [] && GivesOne(gives, off, before, between) && LastGiven(gives, [off] + rest, before, after)
    ensures LastGiven(gives, rest, between, after)
  {
    var marks := [off] + rest;
    assert forall i :: 0 <= i < |rest| ==> rest[i] == marks[i + 1];
    if i :| 0 <= i < |marks| - 1 && gives(marks[i]) == Ok(after) && after.Some? && forall j :: i < j < |marks| - 1 ==> gives(marks[j]) == Ok(None) {
      if i > 0 {
        assert gives(rest[i - 1]) == Ok(after);
      }
    } else {
      assert gives(marks[0]) == Ok(None);
    }
  }

  // ---------------------------------------------------------------------------
  // Reading a section
  // ---------------------------------------------------------------------------

  /** The records at the marks lead from `before` to `after`, one by one. */
  ghost predicate Run<A(!new)>(one: (nat, A, A) -> bool, marks: seq<nat>, before: A, after: A)
    decreases |marks|
  {
    if |marks| <= 1 then after == before
    else exists between :: one(marks[0], before, between) && Run(one, marks[1..], between, after)
  }

  /** `step` reads one record: its end, and what it makes of what was found before. */
  ghost predicate StepIs<A(!new)>(step: (nat, A) -> Result<(nat, A), WireFailure>, spans: (nat, nat) -> bool, one: (nat, A, A) -> bool) {
    forall off: nat, before: A, next: nat, after: A {:trigger spans(off, next), one(off, before, after)} ::
      step(off, before) == Ok((next, after)) <==> spans(off, next) && one(off, before, after)
  }

  lemma {:induction false} StepTaken<A(!new)>(step: (nat, A) -> Result<(nat, A), WireFailure>, spans: (nat, nat) -> bool,
                                              one: (nat, A, A) -> bool, off: nat, before: A, next: nat, after: A)
    requires StepIs(step, spans, one)
    ensures step(off, before) == Ok((next, after)) <==> spans(off, next) && one(off, before, after)
  {
    assert spans(off, next) || !spans(off, next);
    assert one(off, before, after) || !one(off, before, after);
  }

  lemma {:induction false} RunAccepted<A(!new)>(step: (nat, A) -> Result<(nat, A), WireFailure>, spans: (nat, nat) -> bool,
                                                one: (nat, A, A) -> bool, marks: seq<nat>, before: A, after: A)
    requires StepIs(step, spans, one) && Section(spans, marks) && Run(one, marks, before, after)
    ensures ReadRecords(step, marks[0], |marks| - 1, before) == Ok((marks[|marks| - 1], after))
    decreases |marks|
  {
    if |marks| > 1 {
      var between :| one(marks[0], before, between) && Run(one, marks[1..], between, after);
      SectionTail(spans, marks);
      StepTaken(step, spans, one, marks[0], before, marks[1], between);
      RunAccepted(step, spans, one, marks[1..], between, after);
    }
  }

  lemma {:induction false} RunMarks<A(!new)>(step: (nat, A) -> Result<(nat, A), WireFailure>, spans: (nat, nat) -> bool,
                                             one: (nat, A, A) -> bool, off: nat, n: nat, before: A, end: nat, after: A)
    returns (marks: seq<nat>)
    requires StepIs(step, spans, one) && ReadRecords(step, off, n, before) == Ok((end, after))
    ensures Covers(marks, off, n, end) && Section(spans, marks) && Run(one, marks, before, after)
    decreases n
  {
    if n == 0 {
      marks := [off];
    } else {
      var (next, between) := step(off, before).value;
      var rest := RunMarks(step, spans, one, next, n - 1, between, end, after);
      StepTaken(step, spans, one, off, before, next, between);
      SectionCons(spans, off, rest);
      marks := [off] + rest;
      assert marks[1..] == rest;
    }
  }

  /** Reading one record of a section in which a kind may occur once. */
  ghost function Once<A(!new)>(kind: nat -> bool, says: (nat, A) -> bool): (nat, Option<A>, Option<A>) -> bool {
    (off: nat, before: Option<A>, after: Option<A>) => AddsOne(kind, says, off, before, after)
  }

  lemma {:induction false} AddsIsRun<A(!new)>(kind: nat -> bool, says: (nat, A) -> bool, spans: (nat, nat) -> bool, marks: seq<nat>,
                                              before: Option<A>, after: Option<A>)
    requires Placed(spans, says) && Section(spans, marks)
    ensures Adds(kind, says, marks, before, after) <==> Run(Once(kind, says), marks, before, after)
    decreases |marks|
  {
    if |marks| > 1 {
      var off, rest := marks[0], marks[1..];
      assert marks == [off] + rest;
      SectionTail(spans, marks);
      if Adds(kind, says, marks, before, after) {
        var between := AddsSplit(kind, says, spans, off, rest, before, after);
        AddsIsRun(kind, says, spans, rest, between, after);
        assert Once(kind, says)(off, before, between);
      }
      if Run(Once(kind, says), marks, before, after) {
        var between :| Once(kind, says)(off, before, between) && Run(Once(kind, says), rest, between, after);
        AddsIsRun(kind, says, spans, rest, between, after);
        AddsCons(kind, says, spans, off, rest, before, between, after);
      }
    }
  }

  /** Reading one record of a section of which the last to give something counts. */
  ghost function Latest<A(!new)>(gives: nat -> Result<Option<A>, WireFailure>): (nat, Option<A>, Option<A>) -> bool {
    (off: nat, before: Option<A>, after: Option<A>) => GivesOne(gives, off, before, after)
  }

  lemma {:induction false} GivenIsRun<A(!new)>(gives: nat -> Result<Option<A>, WireFailure>, marks: seq<nat>, before: Option<A>, after: Option<A>)
    requires marks != []
    ensures LastGiven(gives, marks, before, after) <==> Run(Latest(gives), marks, before, after)
    decreases |marks|
  {
    if |marks| > 1 {
      var off, rest := marks[0], marks[1..];
      assert marks == [off] + rest;
      if LastGiven(gives, marks, before, after) {
        assert gives(marks[0]).Ok?;
        var between := if gives(off).value.Some? then gives(off).value else before;
        GivenCons(gives, off, rest, before, between, after);
        GivenIsRun(gives, rest, between, after);
        assert Latest(gives)(off, before, between);
      }
      if Run(Latest(gives), marks, before, after) {
        var between :| Latest(gives)(off, before, between) && Run(Latest(gives), rest, between, after);
        GivenIsRun(gives, rest, between, after);
        GivenCons(gives, off, rest, before, between, after);
      }
    }
  }

  // ---------------------------------------------------------------------------
  // The records of a message
  // ---------------------------------------------------------------------------

  /** A record starts at `off`, its RDATA at `p + 10`, and it ends at `next`, within the message. */
  predicate RecordAt(buf: Bytes, off: nat, name: string, p: nat, next: nat) {
    DecodeName(buf, off) == Ok((name, p)) && p + 10 <= |buf| && next == p + 10 + ReadU16(buf, p + 8) && next <= |buf|
  }

  /** A record starts at `off` and ends at `next`. */
  predicate IsRecord(buf: Bytes, off: nat, next: nat) {
    var owner := DecodeName(buf, off);
    owner.Ok? && RecordAt(buf, off, owner.value.0, owner.value.1, next)
  }

  ghost function Records(buf: Bytes): (nat, nat) -> bool {
    (off: nat, next: nat) => IsRecord(buf, off, next)
  }

  /** The head of the record at `off`, should there be one. */
  predicate HasType(buf: Bytes, off: nat, rtype: int) {
    var owner := DecodeName(buf, off);
    owner.Ok? && owner.value.1 + 2 <= |buf| && ReadU16(buf, owner.value.1) == rtype
  }

  lemma {:induction false} HeadOfRecord(buf: Bytes, off: nat, next: nat)
    requires IsRecord(buf, off, next)
    ensures var owner, head := DecodeName(buf, off).value, ReadRrHead(buf, off, Malformed);
            && head.Ok? && head.value.name == owner.0 && head.value.rtype == ReadU16(buf, owner.1)
            && head.value.rstart == owner.1 + 10 && head.value.rdlen == ReadU16(buf, owner.1 + 8)
            && next == head.value.rstart + head.value.rdlen > off
  {
  }

  lemma {:induction false} RecordOfHead(buf: Bytes, off: nat)
    requires var head := ReadRrHead(buf, off, Malformed); head.Ok? && head.value.rstart + head.value.rdlen <= |buf|
    ensures var head := ReadRrHead(buf, off, Malformed).value; IsRecord(buf, off, head.rstart + head.rdlen)
  {
  }

  lemma {:induction false} RecordsAdvance(buf: Bytes)
    ensures Advances(Records(buf))
  {
    forall a: nat, b: nat | Records(buf)(a, b) ensures a < b {
      HeadOfRecord(buf, a, b);
    }
  }

  // ---------------------------------------------------------------------------
  // Additional records
  // ---------------------------------------------------------------------------

  ghost function TsigKind(buf: Bytes): nat -> bool {
    (off: nat) => HasType(buf, off, 250)
  }

  /** The record at `off` is a TSIG record that reads as `t`. */
  predicate TsigReads(buf: Bytes, off: nat, t: Tsig) {
    var owner := DecodeName(buf, off);
    && owner.Ok? && owner.value.1 + 10 <= |buf| && t.name == owner.value.0 && t.offset == off
    && ParseTsigRdata(buf, owner.value.1 + 10, ReadU16(buf, owner.value.1 + 8)) == Ok(t.data)
  }

  ghost function TsigSays(buf: Bytes): (nat, Tsig) -> bool {
    (off: nat, t: Tsig) => TsigReads(buf, off, t)
  }

  lemma {:induction false} TsigPlaced(buf: Bytes)
    ensures Placed(Records(buf), TsigSays(buf))
  {
    RecordsAdvance(buf);
  }

  lemma {:induction false} OneAdditional(buf: Bytes, off: nat, before: Option<Tsig>, next: nat, after: Option<Tsig>)
    ensures AdditionalRecord(buf, off, before) == Ok((next, after))
       <==> IsRecord(buf, off, next) && AddsOne(TsigKind(buf), TsigSays(buf), off, before, after)
  {
    if IsRecord(buf, off, next) {
      HeadOfRecord(buf, off, next);
    }
    if AdditionalRecord(buf, off, before).Ok? {
      RecordOfHead(buf, off);
    }
  }

  lemma {:induction false} AdditionalSteps(buf: Bytes)
    ensures StepIs(AdditionalStep(buf), Records(buf), Once(TsigKind(buf), TsigSays(buf)))
  {
    forall off: nat, before: Option<Tsig>, next: nat, after: Option<Tsig>
      ensures AdditionalStep(buf)(off, before) == Ok((next, after))
         <==> Records(buf)(off, next) && Once(TsigKind(buf), TsigSays(buf))(off, before, after)
    {
      OneAdditional(buf, off, before, next, after);
    }
  }

  lemma {:induction false} AdditionalAccepted(buf: Bytes, marks: seq<nat>, before: Option<Tsig>, after: Option<Tsig>)
    requires Section(Records(buf), marks) && Adds(TsigKind(buf), TsigSays(buf), marks, before, after)
    ensures ReadRecords(AdditionalStep(buf), marks[0], |marks| - 1, before) == Ok((marks[|marks| - 1], after))
  {
    AdditionalSteps(buf);
    TsigPlaced(buf);
    AddsIsRun(TsigKind(buf), TsigSays(buf), Records(buf), marks, before, after);
    RunAccepted(AdditionalStep(buf), Records(buf), Once(TsigKind(buf), TsigSays(buf)), marks, before, after);
  }

  lemma {:induction false} AdditionalMarks(buf: Bytes, off: nat, n: nat, before: Option<Tsig>, end: nat, after: Option<Tsig>)
    returns (marks: seq<nat>)
    requires ReadRecords(AdditionalStep(buf), off, n, before) == Ok((end, after))
    ensures Covers(marks, off, n, end) && Section(Records(buf), marks) && Adds(TsigKind(buf), TsigSays(buf), marks, before, after)
  {
    AdditionalSteps(buf);
    TsigPlaced(buf);
    marks := RunMarks(AdditionalStep(buf), Records(buf), Once(TsigKind(buf), TsigSays(buf)), off, n, before, end, after);
    AddsIsRun(TsigKind(buf), TsigSays(buf), Records(buf), marks, before, after);
  }

  // ---------------------------------------------------------------------------
  // Authority records
  // ---------------------------------------------------------------------------

  /** Two names one behind the other from `start`; they end at `q`. */
  predicate TwoNames(buf: Bytes, start: nat, q: nat) {
    var first := DecodeName(buf, start);
    && first.Ok?
    && DecodeName(buf, first.value.1).Ok? && DecodeName(buf, first.value.1).value.1 == q
  }

  /** One of the two names of an SOA record has a label that cannot be decoded. */
  predicate Undecodable(buf: Bytes, start: nat) {
    var first := DecodeName(buf, start);
    match first
    case Err(e) => e != Malformed
    case Ok((_, p)) => DecodeName(buf, p).Err? && DecodeName(buf, p).error != Malformed
  }

  /** The serial that the record at `off` gives, if any. */
  function SerialAt(buf: Bytes, off: nat): Result<Option<int>, WireFailure> {
    var owner := DecodeName(buf, off);
    if owner.Err? || owner.value.1 + 10 > |buf| then Ok(None)
    else
      var start, rdlen := owner.value.1 + 10, ReadU16(buf, owner.value.1 + 8);
      if start + rdlen > |buf| then Ok(None)
      else SoaSerial(buf, RrHead(owner.value.0, ReadU16(buf, owner.value.1), ReadU16(buf, owner.value.1 + 2),
                                 ReadU32(buf, owner.value.1 + 4), start, rdlen), None)
  }

  /** When the record at `off`, with RDATA from `start` to `next`, gives a serial, and which. */
  lemma {:induction false} SerialAtIff(buf: Bytes, off: nat, name: string, p: nat, next: nat, n: int)
    requires RecordAt(buf, off, name, p, next)
    ensures SerialAt(buf, off) == Ok(Some(n))
       <==> && ReadU16(buf, p) == 6 && ReadU16(buf, p + 8) >= 22
            && exists q: nat :: TwoNames(buf, p + 10, q) && q + 20 <= next && n == ReadU32(buf, q)
    ensures SerialAt(buf, off).Err? <==> ReadU16(buf, p) == 6 && ReadU16(buf, p + 8) >= 22 && Undecodable(buf, p + 10)
  {
    var first := DecodeName(buf, p + 10);
    if first.Ok? {
      var second := DecodeName(buf, first.value.1);
      assert second.Ok? ==> TwoNames(buf, p + 10, second.value.1);
    }
  }

  ghost function SerialGiven(buf: Bytes): nat -> Result<Option<int>, WireFailure> {
    (off: nat) => SerialAt(buf, off)
  }

  lemma {:induction false} SerialOverrides(buf: Bytes, rr: RrHead, before: Option<int>)
    requires rr.rstart + rr.rdlen <= |buf|
    ensures var alone := SoaSerial(buf, rr, None);
            SoaSerial(buf, rr, before) == if alone.Err? then alone else Ok(if alone.value.Some? then alone.value else before)
  {
  }

  lemma {:induction false} OneAuthority(buf: Bytes, off: nat, before: Option<int>, next: nat, after: Option<int>)
    ensures AuthorityRecord(buf, off, before) == Ok((next, after))
       <==> IsRecord(buf, off, next) && GivesOne(SerialGiven(buf), off, before, after)
  {
    if IsRecord(buf, off, next) {
      HeadOfRecord(buf, off, next);
      SerialOverrides(buf, ReadRrHead(buf, off, Malformed).value, before);
    }
    if AuthorityRecord(buf, off, before).Ok? {
      RecordOfHead(buf, off);
      SerialOverrides(buf, ReadRrHead(buf, off, Malformed).value, before);
    }
  }

  lemma {:induction false} AuthoritySteps(buf: Bytes)
    ensures StepIs(AuthorityStep(buf), Records(buf), Latest(SerialGiven(buf)))
  {
    forall off: nat, before: Option<int>, next: nat, after: Option<int>
      ensures AuthorityStep(buf)(off, before) == Ok((next, after))
         <==> Records(buf)(off, next) && Latest(SerialGiven(buf))(off, before, after)
    {
      OneAuthority(buf, off, before, next, after);
    }
  }

  lemma {:induction false} AuthorityAccepted(buf: Bytes, marks: seq<nat>, before: Option<int>, after: Option<int>)
    requires Section(Records(buf), marks) && LastGiven(SerialGiven(buf), marks, before, after)
    ensures ReadRecords(AuthorityStep(buf), marks[0], |marks| - 1, before) == Ok((marks[|marks| - 1], after))
  {
    AuthoritySteps(buf);
    GivenIsRun(SerialGiven(buf), marks, before, after);
    RunAccepted(AuthorityStep(buf), Records(buf), Latest(SerialGiven(buf)), marks, before, after);
  }

  lemma {:induction false} AuthorityMarks(buf: Bytes, off: nat, n: nat, before: Option<int>, end: nat, after: Option<int>)
    returns (marks: seq<nat>)
    requires ReadRecords(AuthorityStep(buf), off, n, before) == Ok((end, after))
    ensures Covers(marks, off, n, end) && Section(Records(buf), marks) && LastGiven(SerialGiven(buf), marks, before, after)
  {
    AuthoritySteps(buf);
    marks := RunMarks(AuthorityStep(buf), Records(buf), Latest(SerialGiven(buf)), off, n, before, end, after);
    GivenIsRun(SerialGiven(buf), marks, before, after);
  }

  // ---------------------------------------------------------------------------
  // Queries
  // ---------------------------------------------------------------------------

  /** Header and question of `q`; the question ends at `end`. */
  predicate Opens(buf: Bytes, q: Query, end: nat) {
    && 16 <= end <= |buf|
    && q.id == ReadU16(buf, 0) && q.flags == ReadU16(buf, 2) < 0x8000
    && ReadU16(buf, 4) == 1 && ReadU16(buf, 6) == 0 && q.arcount == ReadU16(buf, 10)
    && DecodeName(buf, 12) == Ok((q.qname, end - 4))
    && q.qtype == ReadU16(buf, end - 4) && q.qclass == ReadU16(buf, end - 2)
    && q.rawQuestion == buf[12..end] && q.raw == buf
  }

  /** Two sections of records, as many as the header says, fill the message behind the question. */
  ghost predicate Filled(buf: Bytes, end: nat, authority: seq<nat>, additional: seq<nat>) {
    && 12 <= |buf|
    && |authority| == ReadU16(buf, 8) + 1 && Section(Records(buf), authority)
    && |additional| == ReadU16(buf, 10) + 1 && Section(Records(buf), additional)
    && authority[0] == end && authority[|authority| - 1] == additional[0]
    && additional[|additional| - 1] == |buf|
  }

  /** `q` is what the message says. */
  ghost predicate Says(buf: Bytes, q: Query, end: nat, authority: seq<nat>, additional: seq<nat>) {
    && Opens(buf, q, end) && Filled(buf, end, authority, additional)
    && LastGiven(SerialGiven(buf), authority, None, q.clientSerial)
    && SaysOnly(TsigKind(buf), TsigSays(buf), additional, q.tsig)
  }

  lemma {:induction false} OpenedIsRead(buf: Bytes, q: Query, end: nat, last: nat)
    requires Opens(buf, q, end)
    requires ReadRecords(AuthorityStep(buf), end, ReadU16(buf, 8), None) == Ok((last, q.clientSerial))
    requires ReadRecords(AdditionalStep(buf), last, ReadU16(buf, 10), None) == Ok((|buf|, q.tsig))
    ensures ParseQuery(buf) == Ok(q)
  {
  }

  lemma {:induction false} QueryIsRead(buf: Bytes, q: Query, end: nat, authority: seq<nat>, additional: seq<nat>)
    requires Says(buf, q, end, authority, additional)
    ensures ParseQuery(buf) == Ok(q)
  {
    AuthorityAccepted(buf, authority, None, q.clientSerial);
    AdditionalAccepted(buf, additional, None, q.tsig);
    OpenedIsRead(buf, q, end, additional[0]);
  }

  lemma {:induction false} SectionsOfQuery(buf: Bytes, q: Query, end: nat)
    requires 16 <= end <= |buf| && ReadSections(buf, q.qname, end) == Ok(q)
    ensures exists last: nat :: && ReadRecords(AuthorityStep(buf), end, ReadU16(buf, 8), None) == Ok((last, q.clientSerial))
                                && ReadRecords(AdditionalStep(buf), last, ReadU16(buf, 10), None) == Ok((|buf|, q.tsig))
  {
  }

  lemma {:induction false} QueryOpens(buf: Bytes, q: Query) returns (end: nat)
    requires ParseQuery(buf) == Ok(q)
    ensures Opens(buf, q, end) && ReadSections(buf, q.qname, end) == Ok(q)
  {
    end := DecodeName(buf, 12).value.1 + 4;
  }

  lemma {:induction false} QueryIsSaid(buf: Bytes, q: Query) returns (end: nat, authority: seq<nat>, additional: seq<nat>)
    requires ParseQuery(buf) == Ok(q)
    ensures Says(buf, q, end, authority, additional)
  {
    end := QueryOpens(buf, q);
    SectionsOfQuery(buf, q, end);
    var last: nat :| && ReadRecords(AuthorityStep(buf), end, ReadU16(buf, 8), None) == Ok((last, q.clientSerial))
                     && ReadRecords(AdditionalStep(buf), last, ReadU16(buf, 10), None) == Ok((|buf|, q.tsig));
    authority := AuthorityMarks(buf, end, ReadU16(buf, 8), None, last, q.clientSerial);
    additional := AdditionalMarks(buf, last, ReadU16(buf, 10), None, |buf|, q.tsig);
  }

  /**
   The parser accepts a message exactly when it is a query with one question and no answer,
   whose other records, of any type, fill the rest of it to the last octet, at most one of
   them a TSIG record; and the query is what the message says.
   */
  lemma {:induction false} ParseQueryIff(buf: Bytes, q: Query)
    ensures ParseQuery(buf) == Ok(q) <==> exists end: nat, authority, additional :: Says(buf, q, end, authority, additional)
  {
    if ParseQuery(buf) == Ok(q) {
      var end, authority, additional := QueryIsSaid(buf, q);
    }
    if end: nat, authority, additional :| Says(buf, q, end, authority, additional) {
      QueryIsRead(buf, q, end, authority, additional);
    }
  }

  /** Both sections are cut into the given records, but they may end before the message does. */
  ghost predicate Laid(buf: Bytes, end: nat, authority: seq<nat>, additional: seq<nat>) {
    && 16 <= end <= |buf| && DecodeName(buf, 12).Ok? && DecodeName(buf, 12).value.1 == end - 4
    && |authority| == ReadU16(buf, 8) + 1 && Section(Records(buf), authority)
    && |additional| == ReadU16(buf, 10) + 1 && Section(Records(buf), additional)
    && authority[0] == end && authority[|authority| - 1] == additional[0]
  }

  lemma {:induction false} LayoutIsUnique(buf: Bytes, end: nat, authority: seq<nat>, additional: seq<nat>)
    returns (q: Query)
    requires Laid(buf, end, authority, additional) && ParseQuery(buf).Ok?
    ensures ParseQuery(buf) == Ok(q) && Says(buf, q, end, authority, additional)
  {
    q := ParseQuery(buf).value;
    var e, a, b := QueryIsSaid(buf, q);
    RecordsAdvance(buf);
    SectionsAgree(Records(buf), a, authority);
    SectionsAgree(Records(buf), b, additional);
  }

  /** Octets behind the last record are refused. */
  lemma {:induction false} TrailingOctetsAreRefused(buf: Bytes, end: nat, authority: seq<nat>, additional: seq<nat>)
    requires Laid(buf, end, authority, additional) && additional[|additional| - 1] < |buf|
    ensures ParseQuery(buf).Err?
  {
    if ParseQuery(buf).Ok? {
      var q := LayoutIsUnique(buf, end, authority, additional);
      assert false;
    }
  }

  /** A second TSIG record is refused, wherever the two stand among the additional records. */
  lemma {:induction false} SecondTsigIsRefused(buf: Bytes, end: nat, authority: seq<nat>, additional: seq<nat>, i: nat, j: nat)
    requires Laid(buf, end, authority, additional) && i < j < |additional| - 1
    requires HasType(buf, additional[i], 250) && HasType(buf, additional[j], 250)
    ensures ParseQuery(buf).Err?
  {
    if ParseQuery(buf).Ok? {
      var q := LayoutIsUnique(buf, end, authority, additional);
      TsigPlaced(buf);
      NeverTwice(TsigKind(buf), TsigSays(buf), Records(buf), additional, q.tsig, i, j);
      assert false;
    }
  }
}
