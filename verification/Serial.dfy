/**
 Serial number arithmetic of RFC 1982 on the 32-bit serial space (app/serial.py),
 with the facts about chains of updates that the version history rests on.
 */
module Serial {

  const MOD: int := 0x1_0000_0000
  const HALF: int := 0x8000_0000

  /** How the second serial stands to the first. */
  datatype Relation = Equal | Greater | Less | Undecidable

  predicate IsU32(n: int) {
    0 <= n < MOD
  }

  /** The distance one has to go forward, with wrap-around, to get from `a` to `b`. */
  function Distance(a: int, b: int): int {
    (b - a) % MOD
  }

  function Compare(s1: int, s2: int): Relation {
    var a, b := s1 % MOD, s2 % MOD;
    if a == b then Equal
    else
      var delta := (b - a) % MOD;
      if 0 < delta < HALF then Greater
      else if HALF < delta < MOD then Less
      else Undecidable
  }

  /** Swapping the arguments swaps Greater and Less and fixes Equal and Undecidable. */
  lemma {:induction false} CompareFlips(a: int, b: int)
    requires IsU32(a) && IsU32(b)
    ensures Compare(a, b) == Equal <==> a == b
    ensures Compare(a, b) == Greater <==> Compare(b, a) == Less
    ensures Compare(a, b) == Undecidable <==> Compare(b, a) == Undecidable
    ensures Compare(a, b) == Undecidable <==> (b - a == HALF || a - b == HALF)
  {
  }

  /** Every serial steps forward, in the sense of RFC 1982, to its successor. */
  ghost predicate IsForwardChain(serials: seq<int>) {
    && (forall i :: 0 <= i < |serials| ==> IsU32(serials[i]))
    && (forall i :: 0 < i < |serials| ==> Compare(serials[i - 1], serials[i]) == Greater)
  }

  /** The total distance covered by a chain of updates, wrap-arounds included. */
  function Travelled(serials: seq<int>): int {
    if |serials| < 2 then 0
    else Travelled(serials[..|serials| - 1]) + Distance(serials[|serials| - 2], serials[|serials| - 1])
  }

  lemma {:induction false} DistanceComposes(x: int, y: int, z: int, t: int)
    requires Distance(x, y) == t % MOD
    ensures Distance(x, z) == (t + Distance(y, z)) % MOD
  {
  }

  lemma {:induction false} GreaterIsShortDistance(a: int, b: int)
    requires IsU32(a) && IsU32(b)
    ensures Compare(a, b) == Greater <==> 0 < Distance(a, b) < HALF
  {
  }

  lemma {:induction false} TravelledIsDistance(serials: seq<int>)
    requires |serials| > 0 && IsForwardChain(serials)
    ensures Distance(serials[0], serials[|serials| - 1]) == Travelled(serials) % MOD
    ensures Travelled(serials) >= |serials| - 1
  {
    var n := |serials|;
    if n > 1 {
      var front := serials[..n - 1];
      TravelledIsDistance(front);
      GreaterIsShortDistance(serials[n - 2], serials[n - 1]);
      DistanceComposes(serials[0], serials[n - 2], serials[n - 1], Travelled(front));
    }
  }

  lemma {:induction false} SmallRemainder(t: int)
    requires 0 <= t < MOD
    ensures t % MOD == t
  {
  }

  /**
   A chain of updates ends in a serial that a holder of its first serial sees as newer
   exactly when the distance travelled, reduced modulo the serial space, is a short one.
   */
  lemma {:induction false} ForwardChainCompares(serials: seq<int>)
    requires |serials| > 0 && IsForwardChain(serials)
    ensures Compare(serials[0], serials[|serials| - 1]) == Greater <==> 0 < Travelled(serials) % MOD < HALF
  {
    TravelledIsDistance(serials);
    GreaterIsShortDistance(serials[0], serials[|serials| - 1]);
  }

  /** In particular always, while the chain as a whole stays below half the serial space. */
  lemma {:induction false} ShortChainIsForward(serials: seq<int>)
    requires |serials| > 1 && IsForwardChain(serials) && Travelled(serials) < HALF
    ensures Compare(serials[0], serials[|serials| - 1]) == Greater
  {
    TravelledIsDistance(serials);
    SmallRemainder(Travelled(serials));
    ForwardChainCompares(serials);
  }
}
