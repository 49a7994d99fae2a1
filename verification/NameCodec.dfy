/**
 Wire form of domain names (app/dnswire.py, section 3.1 and 4.1.4 of RFC 1035): encoding,
 and decoding with compression pointers.
 */
module NameCodec {
  import opened Basics
  import opened Names

  // ---------------------------------------------------------------------------
  // Octets and characters
  // ---------------------------------------------------------------------------

  predicate IsAscii(s: string) {
    forall i :: 0 <= i < |s| ==> s[i] as int < 128
  }

  predicate AllAscii(bs: Bytes) {
    forall i :: 0 <= i < |bs| ==> bs[i] < 128
  }

  /** Lower case of an ASCII code. */
  function Lower(c: int): (r: byte)
    requires 0 <= c < 128
    ensures r < 128
  {
    if 65 <= c <= 90 then c + 32 else c
  }

  /** The octets of an ASCII text, lower-cased. */
  function Octets(s: string): Bytes
    requires IsAscii(s)
  {
    seq(|s|, i requires 0 <= i < |s| => Lower(s[i] as int))
  }

  /** The lower-cased text of ASCII octets. */
  function Text(bs: Bytes): string
    requires AllAscii(bs)
  {
    seq(|bs|, i requires 0 <= i < |bs| => Lower(bs[i]) as char)
  }

  /** A label that the wire carries as it is: ASCII, without capitals. */
  predicate WireLabel(l: string) {
    1 <= |l| <= 63 && forall i :: 0 <= i < |l| ==> l[i] as int < 128 && !('A' <= l[i] <= 'Z')
  }

  /** The root, or labels that the wire carries as they are, each followed by a dot. */
  predicate IsWireName(name: string) {
    || name == "."
    || (|name| >= 2 && name[|name| - 1] == '.' && forall l :: l in NameLabels(name) ==> WireLabel(l))
  }

  lemma {:induction false} LabelTextRoundTrip(l: string)
    requires WireLabel(l)
    ensures IsAscii(l) && AllAscii(Octets(l)) && Text(Octets(l)) == l
  {
    forall i | 0 <= i < |l| ensures Lower(l[i] as int) as char == l[i] {
    }
  }

  lemma {:induction false} LabelIsWire(l: string)
    requires LabelOk(l)
    ensures WireLabel(l)
  {
    var core := if l[|l| - 1] == '\n' then l[..|l| - 1] else l;
    assert l == core || l == core + ['\n'];
    forall i | 0 <= i < |l| ensures l[i] as int < 128 && !('A' <= l[i] <= 'Z') {
      assert LabelChar(l[i]) || l[i] == '\n' by {
        assert i < |core| ==> l[i] == core[i] && core[i] in core;
      }
    }
  }

  lemma {:induction false} CanonicalIsWire(name: string)
    requires IsCanonical(name)
    ensures IsWireName(name)
  {
    forall l | l in NameLabels(name) ensures WireLabel(l) {
      LabelIsWire(l);
    }
  }

  // ---------------------------------------------------------------------------
  // Encoding
  // ---------------------------------------------------------------------------

  function StripDots(s: string): string {
    if s != "" && s[|s| - 1] == '.' then StripDots(s[..|s| - 1]) else s
  }

  function EncodeLabel(l: string): Result<Bytes, WireFailure> {
    if l == "" then Err(Malformed)
    else if !IsAscii(l) then Err(NotAscii)
    else if |l| > 63 then Err(Malformed)
    else Ok([|l|] + Octets(l))
  }

  function EncodeLabels(ls: seq<string>): Result<Bytes, WireFailure> {
    if ls == [] then Ok([0])
    else
      match EncodeLabel(ls[0])
      case Err(e) => Err(e)
      case Ok(lab) =>
        match EncodeLabels(ls[1..])
        case Err(e) => Err(e)
        case Ok(rest) => Ok(lab + rest)
  }

  function EncodeName(name: string): Result<Bytes, WireFailure> {
    if name == "" || name == "." then Ok([0])
    else EncodeLabels(SplitDots(StripDots(name)))
  }

  /** The encoder as the code runs it: one pass over the labels into an output buffer. */
  method EncodeNameLoop(name: string) returns (r: Result<Bytes, WireFailure>)
    ensures r == EncodeName(name)
  {
    if name == "" || name == "." {
      return Ok([0]);
    }
    var labels := SplitDots(StripDots(name));
    var out: Bytes := [];
    var i := 0;
    assert labels[0..] == labels;
    assert forall rest: Bytes :: out + rest == rest;
    while i < |labels|
      invariant 0 <= i <= |labels|
      invariant match EncodeLabels(labels[i..])
                case Ok(rest) => EncodeLabels(labels) == Ok(out + rest)
                case Err(e) => EncodeLabels(labels) == Err(e)
    {
      assert labels[i..][1..] == labels[i + 1..];
      var lbl := labels[i];
      if lbl == "" {
        return Err(Malformed);
      }
      if !IsAscii(lbl) {
        return Err(NotAscii);
      }
      if |lbl| > 63 {
        return Err(Malformed);
      }
      assert forall rest: Bytes :: out + (([|lbl|] + Octets(lbl)) + rest) == (out + ([|lbl|] + Octets(lbl))) + rest;
      out := out + ([|lbl|] + Octets(lbl));
      i := i + 1;
    }
    r := Ok(out + [0]);
  }

  /** The wire form of a canonical name. */
  function Encoded(name: string): (wire: Bytes)
    requires IsCanonical(name)
    ensures EncodeName(name) == Ok(wire)
    ensures |wire| == |name| + 1 <= MAX_NAME_LEN
  {
    CanonicalEncodes(name);
    EncodeName(name).value
  }

  lemma {:induction false} LabelsEncode(ls: seq<string>)
    requires forall l :: l in ls ==> WireLabel(l)
    ensures EncodeLabels(ls).Ok? && |EncodeLabels(ls).value| == LabelsWireLen(ls)
  {
    if ls != [] {
      LabelTextRoundTrip(ls[0]);
      LabelsEncode(ls[1..]);
    }
  }

  lemma {:induction false} JoinLength(ls: seq<string>)
    requires |ls| > 0
    ensures |JoinDots(ls)| + 2 == LabelsWireLen(ls)
  {
    if |ls| > 1 {
      JoinLength(ls[1..]);
    } else {
      assert ls[1..] == [];
    }
  }

  lemma {:induction false} StripFinalDot(name: string)
    requires |name| >= 2 && name[|name| - 1] == '.' && forall l :: l in NameLabels(name) ==> l != ""
    ensures StripDots(name) == name[..|name| - 1]
  {
    var s := name[..|name| - 1];
    assert NameLabels(name) == SplitDots(s);
    if s[|s| - 1] == '.' {
      FinalDotSplitsEmpty(s);
    }
  }

  lemma {:induction false} FinalDotSplitsEmpty(s: string)
    requires s != "" && s[|s| - 1] == '.'
    ensures "" in SplitDots(s)
  {
    assert s == s[..|s| - 1] + "." + "";
    SplitAtDot(s[..|s| - 1], "");
  }

  lemma {:induction false} WireNameEncodes(name: string)
    requires IsWireName(name)
    ensures EncodeName(name) == EncodeLabels(NameLabels(name)) && EncodeName(name).Ok?
    ensures |EncodeName(name).value| == if name == "." then 1 else |name| + 1
    ensures name == JoinDots(NameLabels(name)) + "."
  {
    LabelsEncode(NameLabels(name));
    if name != "." {
      StripFinalDot(name);
      JoinSplit(name[..|name| - 1]);
      JoinLength(NameLabels(name));
    }
  }

  lemma {:induction false} CanonicalEncodes(name: string)
    requires IsCanonical(name)
    ensures EncodeName(name) == EncodeLabels(NameLabels(name))
    ensures EncodeName(name).Ok? && |EncodeName(name).value| == |name| + 1 <= MAX_NAME_LEN
  {
    CanonicalIsWire(name);
    WireNameEncodes(name);
    LabelsEncode(NameLabels(name));
  }

  // ---------------------------------------------------------------------------
  // Decoding
  // ---------------------------------------------------------------------------

  /** Offsets no pointer has led to yet. */
  ghost function Unseen(buf: Bytes, seen: set<nat>): set<nat> {
    set i: nat | i < |buf| && i !in seen
  }

  function PointerTarget(hi: byte, lo: byte): nat
    requires hi >= 192
  {
    (hi - 192) * 256 + lo
  }

  /**
   Labels from offset `cur` on, and the offset just behind what stands there: behind the
   closing zero, or behind the first pointer. `seen` holds the pointer targets used so far.
   After a pointer the scan moves forward again, so the offset alone does not decrease:
   first the unseen targets do, then the octets left.
   */
  function Walk(buf: Bytes, cur: nat, seen: set<nat>): (r: Result<(seq<string>, nat), WireFailure>)
    ensures r.Ok? ==> cur < r.value.1 <= |buf|
    decreases Unseen(buf, seen), |buf| - cur
  {
    if cur >= |buf| then Err(Malformed)
    else
      var n := buf[cur];
      if n == 0 then Ok(([], cur + 1))
      else if n >= 192 then
        if cur + 1 >= |buf| then Err(Malformed)
        else
          var ptr := PointerTarget(n, buf[cur + 1]);
          if ptr in seen || ptr >= cur then Err(Malformed)
          else
            assert ptr in Unseen(buf, seen) && ptr !in Unseen(buf, seen + {ptr});
            match Walk(buf, ptr, seen + {ptr})
            case Err(e) => Err(e)
            case Ok((labels, _)) => Ok((labels, cur + 2))
      else if n >= 64 then Err(Malformed)
      else if cur + 1 + n > |buf| then Err(Malformed)
      else
        var lbl := buf[cur + 1..cur + 1 + n];
        if !AllAscii(lbl) then Err(NotAscii)
        else
          match Walk(buf, cur + 1 + n, seen)
          case Err(e) => Err(e)
          case Ok((labels, next)) => Ok(([Text(lbl)] + labels, next))
  }

  function DecodeName(buf: Bytes, off: nat): (r: Result<(string, nat), WireFailure>)
    ensures r.Ok? ==> off < r.value.1 <= |buf|
  {
    match Walk(buf, off, {})
    case Err(e) => Err(e)
    case Ok((labels, next)) => Ok((JoinDots(labels) + ".", next))
  }

  /** What the rest of the walk adds to the labels collected so far. */
  ghost function Continue(labels: seq<string>, jumped: bool, nextOff: nat,
                          rest: Result<(seq<string>, nat), WireFailure>): Result<(seq<string>, nat), WireFailure> {
    match rest
    case Err(e) => Err(e)
    case Ok((more, next)) => Ok((labels + more, if jumped then nextOff else next))
  }

  /** One label read from the buffer, in front of what follows. */
  ghost function Prepend(text: string, rest: Result<(seq<string>, nat), WireFailure>): Result<(seq<string>, nat), WireFailure> {
    match rest
    case Err(e) => Err(e)
    case Ok((more, next)) => Ok(([text] + more, next))
  }

  lemma {:induction false} ContinueLabel(labels: seq<string>, text: string, jumped: bool, nextOff: nat,
                      rest: Result<(seq<string>, nat), WireFailure>)
    ensures Continue(labels, jumped, nextOff, Prepend(text, rest)) == Continue(labels + [text], jumped, nextOff, rest)
  {
    if rest.Ok? {
      assert labels + ([text] + rest.value.0) == (labels + [text]) + rest.value.0;
    }
  }

  lemma {:induction false} WalkLabel(buf: Bytes, cur: nat, seen: set<nat>, next: nat)
    requires cur < |buf| && 1 <= buf[cur] < 64 && next == cur + 1 + buf[cur] <= |buf|
    requires AllAscii(buf[cur + 1..next])
    ensures Walk(buf, cur, seen) == Prepend(Text(buf[cur + 1..next]), Walk(buf, next, seen))
  {
  }

  lemma {:induction false} WalkPointer(buf: Bytes, cur: nat, seen: set<nat>, ptr: nat)
    requires cur + 1 < |buf| && buf[cur] >= 192 && ptr == PointerTarget(buf[cur], buf[cur + 1])
    requires ptr !in seen && ptr < cur
    ensures ptr in Unseen(buf, seen) && ptr !in Unseen(buf, seen + {ptr})
    ensures Walk(buf, cur, seen) == Continue([], true, cur + 2, Walk(buf, ptr, seen + {ptr}))
  {
    var rest := Walk(buf, ptr, seen + {ptr});
    if rest.Ok? {
      assert [] + rest.value.0 == rest.value.0;
    }
  }

  lemma {:induction false} ContinueJump(labels: seq<string>, jumped: bool, nextOff: nat, behind: nat,
                                        rest: Result<(seq<string>, nat), WireFailure>)
    ensures Continue(labels, jumped, nextOff, Continue([], true, behind, rest))
         == Continue(labels, true, if jumped then nextOff else behind, rest)
  {
    if rest.Ok? {
      assert [] + rest.value.0 == rest.value.0;
    }
  }

  /** The scan as the code runs it: a loop over a cursor, a label list and a seen set. */
  method ScanLabels(buf: Bytes, off: nat) returns (r: Result<(seq<string>, nat), WireFailure>)
    ensures r == Walk(buf, off, {})
  {
    var labels: seq<string> := [];
    var seen: set<nat> := {};
    var cur: nat := off;
    var jumped := false;
    var nextOff: nat := 0;
    assert Walk(buf, off, {}).Ok? ==> [] + Walk(buf, off, {}).value.0 == Walk(buf, off, {}).value.0;
    while true
      invariant Walk(buf, off, {}) == Continue(labels, jumped, nextOff, Walk(buf, cur, seen))
      decreases Unseen(buf, seen), |buf| - cur
    {
      if cur >= |buf| {
        return Err(Malformed);
      }
      var n := buf[cur];
      if n == 0 {
        if !jumped {
          nextOff := cur + 1;
        }
        assert labels + [] == labels;
        return Ok((labels, nextOff));
      }
      if n >= 192 {
        if cur + 1 >= |buf| {
          return Err(Malformed);
        }
        var ptr := PointerTarget(n, buf[cur + 1]);
        if ptr in seen || ptr >= cur {
          return Err(Malformed);
        }
        WalkPointer(buf, cur, seen, ptr);
        ContinueJump(labels, jumped, nextOff, cur + 2, Walk(buf, ptr, seen + {ptr}));
        seen := seen + {ptr};
        if !jumped {
          nextOff := cur + 2;
        }
        cur := ptr;
        jumped := true;
        continue;
      }
      if n >= 64 {
        return Err(Malformed);
      }
      var next: nat := cur + 1 + n;
      if next > |buf| {
        return Err(Malformed);
      }
      var lbl := buf[cur + 1..next];
      if !AllAscii(lbl) {
        return Err(NotAscii);
      }
      WalkLabel(buf, cur, seen, next);
      ContinueLabel(labels, Text(lbl), jumped, nextOff, Walk(buf, next, seen));
      labels := labels + [Text(lbl)];
      cur := next;
    }
  }

  method DecodeNameLoop(buf: Bytes, off: nat) returns (r: Result<(string, nat), WireFailure>)
    ensures r == DecodeName(buf, off)
  {
    var scanned := ScanLabels(buf, off);
    if scanned.Err? {
      return Err(scanned.error);
    }
    r := Ok((JoinDots(scanned.value.0) + ".", scanned.value.1));
  }

  // ---------------------------------------------------------------------------
  // Round trip
  // ---------------------------------------------------------------------------

  lemma {:induction false} WalkReadsLabel(buf: Bytes, off: nat, l: string, seen: set<nat>)
    requires WireLabel(l) && EncodeLabel(l).Ok?
    requires At(buf, off, EncodeLabel(l).value)
    ensures Walk(buf, off, seen) == Prepend(l, Walk(buf, off + 1 + |l|, seen))
  {
    LabelTextRoundTrip(l);
    AtConcat(buf, off, [|l|], Octets(l));
    AtIndex(buf, off, [|l|], 0);
    AtSlice(buf, off + 1, Octets(l));
  }

  lemma {:induction false} WalkReadsEnd(buf: Bytes, off: nat, seen: set<nat>)
    requires At(buf, off, [0])
    ensures Walk(buf, off, seen) == Ok(([], off + 1))
  {
    AtIndex(buf, off, [0], 0);
  }

  lemma {:induction false} WalkReadsLabelThen(buf: Bytes, off: nat, l: string, rest: Bytes, seen: set<nat>)
    requires WireLabel(l) && EncodeLabel(l).Ok? && At(buf, off, EncodeLabel(l).value + rest)
    ensures Walk(buf, off, seen) == Prepend(l, Walk(buf, off + 1 + |l|, seen))
    ensures At(buf, off + 1 + |l|, rest)
  {
    LabelTextRoundTrip(l);
    AtConcat(buf, off, EncodeLabel(l).value, rest);
    WalkReadsLabel(buf, off, l, seen);
  }

  lemma {:induction false} WalkReadsLabels(buf: Bytes, off: nat, ls: seq<string>, seen: set<nat>)
    requires forall l :: l in ls ==> WireLabel(l)
    requires EncodeLabels(ls).Ok? && At(buf, off, EncodeLabels(ls).value)
    ensures Walk(buf, off, seen) == Ok((ls, off + |EncodeLabels(ls).value|))
    decreases |ls|
  {
    if ls == [] {
      WalkReadsEnd(buf, off, seen);
    } else {
      var l, tail := ls[0], ls[1..];
      EncodeStep(ls);
      WalkReadsLabelThen(buf, off, l, EncodeLabels(tail).value, seen);
      WalkReadsLabels(buf, off + 1 + |l|, tail, seen);
      assert ls == [l] + tail;
    }
  }

  lemma {:induction false} EncodeStep(ls: seq<string>)
    requires ls != [] && WireLabel(ls[0]) && EncodeLabels(ls).Ok?
    ensures EncodeLabel(ls[0]).Ok? && EncodeLabels(ls[1..]).Ok?
    ensures EncodeLabels(ls).value == EncodeLabel(ls[0]).value + EncodeLabels(ls[1..]).value
    ensures |EncodeLabel(ls[0]).value| == 1 + |ls[0]|
  {
  }

  /**
   The decoder inverts the encoder on every name made of labels that the wire carries as they
   are, whatever octets surround the encoded name in the message.
   */
  lemma {:induction false} DecodeInvertsEncode(buf: Bytes, off: nat, name: string)
    requires IsWireName(name) && EncodeName(name).Ok? && At(buf, off, EncodeName(name).value)
    ensures DecodeName(buf, off) == Ok((name, off + |EncodeName(name).value|))
  {
    WireNameEncodes(name);
    WalkReadsLabels(buf, off, NameLabels(name), {});
  }

  /** Wherever in a message the octets `wire` stand, the decoder reads `name` from them. */
  ghost predicate Denotes(wire: Bytes, name: string) {
    forall buf, off: nat {:trigger At(buf, off, wire)} :: At(buf, off, wire) ==> DecodeName(buf, off) == Ok((name, off + |wire|))
  }

  lemma {:induction false} WireNameDenotes(name: string)
    requires IsWireName(name)
    ensures EncodeName(name).Ok? && Denotes(EncodeName(name).value, name)
  {
    WireNameEncodes(name);
    var wire := EncodeName(name).value;
    forall buf, off: nat | At(buf, off, wire) ensures DecodeName(buf, off) == Ok((name, off + |wire|)) {
      DecodeInvertsEncode(buf, off, name);
    }
  }

  lemma {:induction false} CanonicalDenotes(name: string)
    requires IsCanonical(name)
    ensures Denotes(Encoded(name), name)
  {
    CanonicalIsWire(name);
    WireNameDenotes(name);
  }

  // ---------------------------------------------------------------------------
  // Which names survive the wire
  // ---------------------------------------------------------------------------

  function LowerCase(l: string): string
    requires IsAscii(l)
  {
    seq(|l|, i requires 0 <= i < |l| => Lower(l[i] as int) as char)
  }

  lemma {:induction false} LabelReadsLowered(buf: Bytes, off: nat, l: string, rest: Bytes, seen: set<nat>)
    requires EncodeLabel(l).Ok? && At(buf, off, EncodeLabel(l).value + rest)
    ensures IsAscii(l) && 1 <= |l| <= 63
    ensures Walk(buf, off, seen) == Prepend(LowerCase(l), Walk(buf, off + 1 + |l|, seen))
    ensures At(buf, off + 1 + |l|, rest)
  {
    AtConcat(buf, off, EncodeLabel(l).value, rest);
    AtConcat(buf, off, [|l|], Octets(l));
    AtIndex(buf, off, [|l|], 0);
    AtSlice(buf, off + 1, Octets(l));
    assert Text(Octets(l)) == LowerCase(l);
  }

  lemma {:induction false} LoweredIsWire(l: string)
    requires IsAscii(l) && 1 <= |l| <= 63 && '.' !in l
    ensures WireLabel(LowerCase(l)) && '.' !in LowerCase(l)
  {
    forall i | 0 <= i < |l| ensures LowerCase(l)[i] != '.' {
      assert l[i] in l;
    }
  }

  lemma {:induction false} LabelsReadLowered(buf: Bytes, off: nat, ls: seq<string>, seen: set<nat>) returns (read: seq<string>)
    requires EncodeLabels(ls).Ok? && At(buf, off, EncodeLabels(ls).value) && forall l :: l in ls ==> '.' !in l
    ensures Walk(buf, off, seen) == Ok((read, off + |EncodeLabels(ls).value|)) && |read| == |ls|
    ensures forall l :: l in read ==> WireLabel(l) && '.' !in l
    decreases |ls|
  {
    if ls == [] {
      WalkReadsEnd(buf, off, seen);
      read := [];
    } else {
      LabelReadsLowered(buf, off, ls[0], EncodeLabels(ls[1..]).value, seen);
      var rest := LabelsReadLowered(buf, off + 1 + |ls[0]|, ls[1..], seen);
      LoweredIsWire(ls[0]);
      read := [LowerCase(ls[0])] + rest;
    }
  }

  lemma {:induction false} JoinedIsWire(read: seq<string>)
    requires read != [] && forall l :: l in read ==> WireLabel(l) && '.' !in l
    ensures IsWireName(JoinDots(read) + ".")
  {
    var s := JoinDots(read);
    SplitJoin(read);
    JoinLength(read);
    assert (s + ".")[..|s|] == s;
    assert read[0] in read;
  }

  /** Of the names that have a wire form, exactly those read back as they were. */
  lemma {:induction false} NameSurvivesIff(name: string)
    requires EncodeName(name).Ok?
    ensures Denotes(EncodeName(name).value, name) <==> IsWireName(name)
  {
    if IsWireName(name) {
      WireNameDenotes(name);
    } else {
      var wire := EncodeName(name).value;
      assert At(wire, 0, wire);
      if name == "" {
        WalkReadsEnd(wire, 0, {});
      } else {
        var ls := SplitDots(StripDots(name));
        JoinSplit(StripDots(name));
        var read := LabelsReadLowered(wire, 0, ls, {});
        JoinedIsWire(read);
      }
    }
  }

  // ---------------------------------------------------------------------------
  // Names of keys
  // ---------------------------------------------------------------------------

  /** A stored key name that a request can name; the management interface allows 255 characters. */
  predicate IsKeyName(name: string) {
    IsWireName(name) && |name| <= 255
  }

  /** The wire form of a key name. */
  function KeyWire(name: string): (owner: Bytes)
    requires IsKeyName(name)
    ensures EncodeName(name) == Ok(owner)
    ensures 1 <= |owner| <= 256
  {
    WireNameEncodes(name);
    EncodeName(name).value
  }

  // ---------------------------------------------------------------------------
  // The seen set rejects loops and nothing else
  // ---------------------------------------------------------------------------

  /**
   Reference reading of section 4.1.4 of RFC 1035, with no memory of pointers: follow
   labels and strictly backward pointers for at most `n` steps.
   */
  function Reads(buf: Bytes, cur: nat, n: nat): Option<seq<string>>
    decreases n
  {
    if n == 0 || cur >= |buf| then None
    else if buf[cur] == 0 then Some([])
    else if buf[cur] >= 192 then
      if cur + 1 < |buf| && PointerTarget(buf[cur], buf[cur + 1]) < cur
      then Reads(buf, PointerTarget(buf[cur], buf[cur + 1]), n - 1)
      else None
    else if buf[cur] >= 64 || cur + 1 + buf[cur] > |buf| then None
    else
      var lbl := buf[cur + 1..cur + 1 + buf[cur]];
      if !AllAscii(lbl) then None
      else
        match Reads(buf, cur + 1 + buf[cur], n - 1)
        case None => None
        case Some(more) => Some([Text(lbl)] + more)
  }

  lemma {:induction false} MoreFuel(buf: Bytes, cur: nat, n: nat, m: nat)
    requires n <= m && Reads(buf, cur, n).Some?
    ensures Reads(buf, cur, m) == Reads(buf, cur, n)
    decreases n
  {
    if buf[cur] == 0 {
    } else if buf[cur] >= 192 {
      MoreFuel(buf, PointerTarget(buf[cur], buf[cur + 1]), n - 1, m - 1);
    } else {
      MoreFuel(buf, cur + 1 + buf[cur], n - 1, m - 1);
    }
  }

  lemma {:induction false} WalkHasReading(buf: Bytes, cur: nat, seen: set<nat>) returns (n: nat)
    requires Walk(buf, cur, seen).Ok?
    ensures Reads(buf, cur, n) == Some(Walk(buf, cur, seen).value.0)
    decreases Unseen(buf, seen), |buf| - cur
  {
    if buf[cur] == 0 {
      n := 1;
    } else if buf[cur] >= 192 {
      var ptr := PointerTarget(buf[cur], buf[cur + 1]);
      assert ptr in Unseen(buf, seen) && ptr !in Unseen(buf, seen + {ptr});
      var k := WalkHasReading(buf, ptr, seen + {ptr});
      n := k + 1;
    } else {
      var k := WalkHasReading(buf, cur + 1 + buf[cur], seen);
      n := k + 1;
    }
  }

  /** `n` is the least number of steps in which the name at `cur` can be read. */
  ghost predicate LeastFuel(buf: Bytes, cur: nat, n: nat) {
    n > 0 && Reads(buf, cur, n).Some? && Reads(buf, cur, n - 1).None?
  }

  lemma {:induction false} ReadingHasWalk(buf: Bytes, cur: nat, seen: set<nat>, n: nat)
    requires LeastFuel(buf, cur, n)
    requires forall p :: p in seen ==> Reads(buf, p, n - 1).None?
    ensures Walk(buf, cur, seen).Ok? && Walk(buf, cur, seen).value.0 == Reads(buf, cur, n).value
    decreases n
  {
    if buf[cur] == 0 {
    } else {
      var next := if buf[cur] >= 192 then PointerTarget(buf[cur], buf[cur + 1]) else cur + 1 + buf[cur];
      assert Reads(buf, next, n - 1).Some?;
      assert n > 1 && Reads(buf, next, n - 2).None?;
      forall p | p in seen ensures Reads(buf, p, n - 2).None? {
        if Reads(buf, p, n - 2).Some? {
          MoreFuel(buf, p, n - 2, n - 1);
        }
      }
      if buf[cur] >= 192 {
        ReadingHasWalk(buf, next, seen + {next}, n - 1);
      } else {
        ReadingHasWalk(buf, next, seen, n - 1);
      }
    }
  }

  lemma {:induction false} LeastFuelExists(buf: Bytes, cur: nat, n: nat) returns (m: nat)
    requires Reads(buf, cur, n).Some?
    ensures LeastFuel(buf, cur, m) && Reads(buf, cur, m) == Reads(buf, cur, n)
    decreases n
  {
    if Reads(buf, cur, n - 1).Some? {
      MoreFuel(buf, cur, n - 1, n);
      m := LeastFuelExists(buf, cur, n - 1);
    } else {
      m := n;
    }
  }

  /**
   The decoder accepts exactly the names that have a finite reading by labels and backward
   pointers, and returns that reading: the set of seen targets only ever rejects a walk
   that would not have ended.
   */
  lemma {:induction false} DecodeIsFiniteReading(buf: Bytes, off: nat)
    ensures DecodeName(buf, off).Ok? <==> exists n :: Reads(buf, off, n).Some?
    ensures forall n :: Reads(buf, off, n).Some? ==>
                          DecodeName(buf, off).Ok? && DecodeName(buf, off).value.0 == JoinDots(Reads(buf, off, n).value) + "."
  {
    if DecodeName(buf, off).Ok? {
      var n := WalkHasReading(buf, off, {});
      assert Reads(buf, off, n).Some?;
    }
    forall n | Reads(buf, off, n).Some?
      ensures DecodeName(buf, off).Ok? && DecodeName(buf, off).value.0 == JoinDots(Reads(buf, off, n).value) + "."
    {
      var m := LeastFuelExists(buf, off, n);
      ReadingHasWalk(buf, off, {}, m);
    }
  }
}
