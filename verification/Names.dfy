/**
 Domain names in presentation form: splitting into labels, the canonical form that the
 store keeps (app/canonical.py), and the wire encoding (app/dnswire.py).
 */
module Names {
  import opened Basics
  import opened Errors

  const MAX_LABEL_LEN := 63
  const MAX_NAME_LEN := 255

  /**
   Why a message could not be read or built: WireError, a label that is not ASCII, or a number
   that cannot be packed or unpacked.
   */
  datatype WireFailure = Malformed | NotAscii | StructError

  // ---------------------------------------------------------------------------
  // Labels
  // ---------------------------------------------------------------------------

  /** Puts a character in front of the first label. */
  function ConsChar(c: char, ls: seq<string>): seq<string>
    requires |ls| > 0
  {
    [[c] + ls[0]] + ls[1..]
  }

  function SplitDots(s: string): (ls: seq<string>)
    ensures |ls| > 0
  {
    if s == "" then [""]
    else if s[0] == '.' then [""] + SplitDots(s[1..])
    else ConsChar(s[0], SplitDots(s[1..]))
  }

  function JoinDots(ls: seq<string>): string {
    if |ls| == 0 then ""
    else if |ls| == 1 then ls[0]
    else ls[0] + "." + JoinDots(ls[1..])
  }

  lemma {:induction false} SplitPlain(s: string)
    requires '.' !in s
    ensures SplitDots(s) == [s]
  {
    if s != "" {
      SplitPlain(s[1..]);
      assert s == [s[0]] + s[1..];
    }
  }

  lemma {:induction false} ConsCharConcat(c: char, a: seq<string>, b: seq<string>)
    requires |a| > 0
    ensures ConsChar(c, a + b) == ConsChar(c, a) + b
  {
  }

  lemma {:induction false} SplitBeforeDot(a: string, t: string)
    requires t != "" && t[0] == '.'
    ensures SplitDots(a + t) == SplitDots(a) + SplitDots(t[1..])
  {
    if a == "" {
      assert "" + t == t;
    } else {
      TailOfConcat(a, t);
      SplitBeforeDot(a[1..], t);
      ConsCharConcat(a[0], SplitDots(a[1..]), SplitDots(t[1..]));
    }
  }

  /** A dot separates the labels to its left from those to its right. */
  lemma {:induction false} SplitAtDot(a: string, b: string)
    ensures SplitDots(a + "." + b) == SplitDots(a) + SplitDots(b)
  {
    var t := "." + b;
    assert t[1..] == b;
    assert a + "." + b == a + t;
    SplitBeforeDot(a, t);
  }

  lemma {:induction false} TailOfConcat(a: string, b: string)
    requires a != ""
    ensures (a + b)[0] == a[0] && (a + b)[1..] == a[1..] + b
  {
  }

  lemma {:induction false} SplitJoin(ls: seq<string>)
    requires |ls| > 0 && forall l :: l in ls ==> '.' !in l
    ensures SplitDots(JoinDots(ls)) == ls
  {
    SplitPlain(ls[0]);
    if |ls| > 1 {
      SplitAtDot(ls[0], JoinDots(ls[1..]));
      SplitJoin(ls[1..]);
    }
  }

  lemma {:induction false} JoinCons(c: char, ls: seq<string>)
    requires |ls| > 0
    ensures JoinDots(ConsChar(c, ls)) == [c] + JoinDots(ls)
  {
  }

  lemma {:induction false} JoinSplit(s: string)
    ensures JoinDots(SplitDots(s)) == s
    ensures forall l :: l in SplitDots(s) ==> '.' !in l
  {
    if s != "" {
      var rest := SplitDots(s[1..]);
      JoinSplit(s[1..]);
      assert s == [s[0]] + s[1..];
      if s[0] == '.' {
        assert ([""] + rest)[1..] == rest;
      } else {
        JoinCons(s[0], rest);
        assert rest[0] in rest;
      }
    }
  }

  // ---------------------------------------------------------------------------
  // Canonical names
  // ---------------------------------------------------------------------------

  predicate LabelChar(c: char) {
    'a' <= c <= 'z' || '0' <= c <= '9' || c == '_' || c == '-'
  }

  /**
   The label pattern of the canonicalizer. Its final anchor also matches just before a
   line feed that ends the label, so such a label passes.
   */
  predicate LabelMatches(l: string) {
    var core := if l != "" && l[|l| - 1] == '\n' then l[..|l| - 1] else l;
    1 <= |core| <= 63 && forall c :: c in core ==> LabelChar(c)
  }

  predicate LabelOk(l: string) {
    |l| <= MAX_LABEL_LEN && LabelMatches(l)
  }

  function NameLabels(name: string): seq<string> {
    if name == "." || name == "" then [] else SplitDots(name[..|name| - 1])
  }

  /** Octets of the wire form: one length octet per label and the closing zero. */
  function LabelsWireLen(ls: seq<string>): nat {
    if ls == [] then 1 else 1 + |ls[0]| + LabelsWireLen(ls[1..])
  }

  /** An absolute canonical name other than the root. */
  predicate IsCanonical(name: string) {
    && |name| >= 2
    && name[|name| - 1] == '.'
    && (forall l :: l in NameLabels(name) ==> LabelOk(l))
    && LabelsWireLen(NameLabels(name)) <= MAX_NAME_LEN
  }

  /** First failing label, in order; then the length of the whole name. */
  function CheckLabels(ls: seq<string>): Result<(), ErrorCode> {
    if ls == [] then Ok(())
    else if |ls[0]| > MAX_LABEL_LEN then Err(LimitExceeded)
    else if !LabelMatches(ls[0]) then Err(ValidationError)
    else CheckLabels(ls[1..])
  }

  function CheckName(name: string): Result<string, ErrorCode> {
    match CheckLabels(NameLabels(name))
    case Err(code) => Err(code)
    case Ok(_) => if LabelsWireLen(NameLabels(name)) > MAX_NAME_LEN then Err(LimitExceeded) else Ok(name)
  }

  lemma {:induction false} CheckLabelsSound(ls: seq<string>)
    ensures CheckLabels(ls).Ok? <==> forall l :: l in ls ==> LabelOk(l)
  {
    if ls != [] {
      CheckLabelsSound(ls[1..]);
      assert ls == [ls[0]] + ls[1..];
      if LabelOk(ls[0]) {
        assert CheckLabels(ls) == CheckLabels(ls[1..]);
      } else {
        assert ls[0] in ls;
      }
    }
  }

  /** The check as the code runs it: one pass that adds up the wire length. */
  method CheckNameLoop(name: string) returns (r: Result<string, ErrorCode>)
    ensures r == CheckName(name)
    ensures |name| >= 2 && name[|name| - 1] == '.' ==> (r.Ok? <==> IsCanonical(name))
  {
    var labels := NameLabels(name);
    CheckLabelsSound(labels);
    var wireLen := 1;
    var i := 0;
    while i < |labels|
      invariant 0 <= i <= |labels|
      invariant CheckLabels(labels) == CheckLabels(labels[i..])
      invariant wireLen + LabelsWireLen(labels[i..]) == 1 + LabelsWireLen(labels)
    {
      assert labels[i..][1..] == labels[i + 1..];
      if |labels[i]| > MAX_LABEL_LEN {
        return Err(LimitExceeded);
      }
      if !LabelMatches(labels[i]) {
        return Err(ValidationError);
      }
      wireLen := wireLen + 1 + |labels[i]|;
      i := i + 1;
    }
    r := if wireLen > MAX_NAME_LEN then Err(LimitExceeded) else Ok(name);
  }

  predicate EndsWith(s: string, suffix: string) {
    |suffix| <= |s| && s[|s| - |suffix|..] == suffix
  }

  /**
   The canonical owner name for `name`, which is the request's text after lower-casing and
   stripping, inside the zone whose apex is `zone`.
   */
  function CanonicalName(name: string, zone: string): Result<string, ErrorCode> {
    if name == "@" then Ok(zone)
    else if name == "" || name == "." then Err(ValidationError)
    else
      var full := if EndsWith(name, ".") then name else name + "." + zone;
      if !EndsWith(full, zone) then Err(NameOutOfZone)
      else if full != zone && !EndsWith(full, "." + zone) then Err(NameOutOfZone)
      else CheckName(full)
  }

  /** Label by label comparison, the way a name server decides what lies below an apex. */
  predicate IsSubname(name: string, zone: string) {
    var n, z := NameLabels(name), NameLabels(zone);
    |n| >= |z| && n[|n| - |z|..] == z
  }

  lemma {:induction false} SuffixIsSubname(name: string, zone: string)
    requires |name| >= 2 && name[|name| - 1] == '.'
    requires |zone| >= 2 && zone[|zone| - 1] == '.'
    requires EndsWith(name, "." + zone)
    ensures IsSubname(name, zone)
  {
    var n, z := name[..|name| - 1], zone[..|zone| - 1];
    var p := name[..|name| - |zone| - 1];
    assert name == p + ("." + zone);
    assert n == p + "." + z;
    SplitAtDot(p, z);
  }

  lemma {:induction false} SubnameHasSuffix(name: string, zone: string)
    requires |name| >= 2 && name[|name| - 1] == '.'
    requires |zone| >= 2 && zone[|zone| - 1] == '.'
    requires IsSubname(name, zone)
    ensures name == zone || EndsWith(name, "." + zone)
  {
    var n, z := name[..|name| - 1], zone[..|zone| - 1];
    var ns, zs := SplitDots(n), SplitDots(z);
    FinalDot(name);
    FinalDot(zone);
    JoinSplit(n);
    JoinSplit(z);
    CutSuffix(ns, zs);
    JoinedSuffix(n, z, ns[..|ns| - |zs|], zs);
  }

  lemma {:induction false} FinalDot(name: string)
    requires |name| >= 1 && name[|name| - 1] == '.'
    ensures name == name[..|name| - 1] + "."
  {
  }

  lemma {:induction false} CutSuffix<T>(all: seq<T>, suffix: seq<T>)
    requires |suffix| <= |all| && all[|all| - |suffix|..] == suffix
    ensures all == all[..|all| - |suffix|] + suffix
  {
  }

  lemma {:induction false} JoinedSuffix(n: string, z: string, front: seq<string>, zs: seq<string>)
    requires zs != [] && n == JoinDots(front + zs) && z == JoinDots(zs)
    ensures n == z || EndsWith(n + ".", "." + (z + "."))
  {
    if front == [] {
      assert front + zs == zs;
    } else {
      JoinConcat(front, zs);
      SuffixByConcat(JoinDots(front), n, z);
    }
  }

  lemma {:induction false} SuffixByConcat(j: string, n: string, z: string)
    requires n == j + "." + z
    ensures EndsWith(n + ".", "." + (z + "."))
  {
  }

  lemma {:induction false} SubnameIsSuffix(name: string, zone: string)
    requires |name| >= 2 && name[|name| - 1] == '.'
    requires |zone| >= 2 && zone[|zone| - 1] == '.'
    ensures IsSubname(name, zone) <==> name == zone || EndsWith(name, "." + zone)
  {
    if EndsWith(name, "." + zone) {
      SuffixIsSubname(name, zone);
    }
    if IsSubname(name, zone) {
      SubnameHasSuffix(name, zone);
    }
  }

  lemma {:induction false} JoinConcat(a: seq<string>, b: seq<string>)
    requires |a| > 0 && |b| > 0
    ensures JoinDots(a + b) == JoinDots(a) + "." + JoinDots(b)
  {
    if |a| == 1 {
      assert (a + b)[1..] == b;
    } else {
      assert (a + b)[1..] == a[1..] + b;
      JoinConcat(a[1..], b);
    }
  }

  lemma {:induction false} EndsWithTail(s: string, suffix: string)
    requires suffix != "" && EndsWith(s, suffix)
    ensures EndsWith(s, suffix[1..])
  {
  }

  lemma {:induction false} InZoneSuffix(full: string, zone: string)
    requires |full| >= 1 && full[|full| - 1] == '.' && IsCanonical(zone)
    requires full == zone || EndsWith(full, "." + zone)
    ensures EndsWith(full, zone) && |full| >= 2 && IsSubname(full, zone)
  {
    if full != zone {
      assert ("." + zone)[1..] == zone;
      EndsWithTail(full, "." + zone);
    }
    SubnameIsSuffix(full, zone);
  }

  lemma {:induction false} CheckNameAccepts(name: string)
    requires |name| >= 2 && name[|name| - 1] == '.'
    ensures CheckName(name).Ok? <==> IsCanonical(name)
    ensures CheckName(name).Ok? ==> CheckName(name).value == name
  {
    CheckLabelsSound(NameLabels(name));
  }

  /**
   The textual suffix tests accept an absolute name exactly when it is canonical and lies
   at or below the apex label by label, so a name that merely ends in the same characters
   is out; and every accepted name, relative ones included, is canonical and in the zone.
   */
  lemma {:induction false} CanonicalNameInZone(name: string, zone: string)
    requires IsCanonical(zone)
    ensures var r := CanonicalName(name, zone);
            && (r.Ok? ==> IsCanonical(r.value) && IsSubname(r.value, zone))
            && (|name| >= 2 && name[|name| - 1] == '.' ==>
                  (r.Ok? <==> IsCanonical(name) && IsSubname(name, zone)) && (r.Ok? ==> r.value == name))
  {
    if name == "@" {
      InZoneSuffix(zone, zone);
    } else if name != "" && name != "." {
      var full := if EndsWith(name, ".") then name else name + "." + zone;
      assert full[|full| - 1] == '.' && |full| >= 2;
      SubnameIsSuffix(full, zone);
      CheckNameAccepts(full);
      if full == zone || EndsWith(full, "." + zone) {
        InZoneSuffix(full, zone);
      }
    }
  }

  /** What a name in a request stands for: the apex, itself if it is absolute, else a name below the apex. */
  function Meant(name: string, zone: string): string {
    if name == "@" then zone else if name != "" && name[|name| - 1] == '.' then name else name + "." + zone
  }

  lemma {:induction false} RelativeIsSubname(name: string, zone: string)
    requires IsCanonical(zone)
    ensures EndsWith(name + "." + zone, "." + zone) && IsSubname(name + "." + zone, zone)
  {
    var full := name + "." + zone;
    assert full[|full| - |"." + zone|..] == "." + zone;
    SuffixIsSubname(full, zone);
  }

  lemma {:induction false} EndsInDot(name: string)
    ensures EndsWith(name, ".") <==> name != "" && name[|name| - 1] == '.'
  {
  }

  lemma {:induction false} MeantIs(name: string, zone: string)
    requires |zone| >= 2 && zone[|zone| - 1] == '.' && name != "@" && name != "" && name != "."
    ensures var full := Meant(name, zone);
            && full == (if EndsWith(name, ".") then name else name + "." + zone) && |full| >= 2 && full[|full| - 1] == '.'
  {
    EndsInDot(name);
  }

  /**
   Every name is taken for the absolute name it stands for, a relative one for itself in front
   of the apex: it is accepted exactly if that name is canonical and in the zone, and read as it.
   Refused as out of the zone are exactly the absolute names that are not below the apex.
   */
  lemma {:induction false} CanonicalNameIff(name: string, zone: string)
    requires IsCanonical(zone)
    ensures name == "" || name == "." ==> CanonicalName(name, zone) == Err(ValidationError)
    ensures name != "" && name != "." ==>
            var r, full := CanonicalName(name, zone), Meant(name, zone);
            && (r.Ok? <==> IsCanonical(full) && IsSubname(full, zone)) && (r.Ok? ==> r.value == full)
            && (r == Err(NameOutOfZone) <==> !IsSubname(full, zone))
            && (r == Err(NameOutOfZone) ==> name[|name| - 1] == '.')
            && r == CanonicalName(full, zone)
  {
    if name == "@" {
      ApexIsRead(zone);
    } else if name != "" && name != "." {
      MeantIs(name, zone);
      MeantIsRead(name, Meant(name, zone), zone);
      if name[|name| - 1] != '.' {
        RelativeIsSubname(name, zone);
      }
    }
  }

  lemma {:induction false} ApexIsRead(zone: string)
    requires IsCanonical(zone)
    ensures CanonicalName(zone, zone) == Ok(zone) && IsSubname(zone, zone)
  {
    InZoneSuffix(zone, zone);
    CheckNameAccepts(zone);
    EndsInDot(zone);
  }

  lemma {:induction false} CheckNameBlames(name: string)
    ensures CheckName(name) != Err(NameOutOfZone)
  {
    CheckLabelsBlame(NameLabels(name));
  }

  lemma {:induction false} CheckLabelsBlame(ls: seq<string>)
    ensures CheckLabels(ls) != Err(NameOutOfZone)
  {
    if ls != [] {
      CheckLabelsBlame(ls[1..]);
    }
  }

  lemma {:induction false} MeantIsRead(name: string, full: string, zone: string)
    requires IsCanonical(zone) && name != "@" && name != "" && name != "."
    requires full == (if EndsWith(name, ".") then name else name + "." + zone) && |full| >= 2 && full[|full| - 1] == '.'
    ensures var r := CanonicalName(name, zone);
            && (r.Ok? <==> IsCanonical(full) && IsSubname(full, zone)) && (r.Ok? ==> r.value == full)
            && (r == Err(NameOutOfZone) <==> !IsSubname(full, zone))
            && r == CanonicalName(full, zone)
  {
    EndsInDot(full);
    SubnameIsSuffix(full, zone);
    CheckNameAccepts(full);
    CheckNameBlames(full);
    if IsSubname(full, zone) {
      InZoneSuffix(full, zone);
    }
  }
}
