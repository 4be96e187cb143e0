/**
 Thirty-two bit sequence numbers and the signed-difference comparisons on them.

 A sequence number is compared through `static_cast<int32_t>(a - b)`.  The lemmas
 below tie those comparisons to unbounded positions: position `p` of a stream whose
 initial sequence number is `isn` is written on the wire as `At(isn, p)`.
 */
module SequenceSpace {
  import opened Primitives

  const MODULUS: int := 0x1_0000_0000
  const HALF: int := 0x8000_0000

  /** `a - b` in 32-bit unsigned arithmetic. */
  function Sub(a: u32, b: u32): u32 { if a >= b then a - b else a - b + MODULUS }

  /** `isn + p` in 32-bit unsigned arithmetic. */
  function At(isn: u32, p: nat): u32 { (isn + p) % MODULUS }

  /** `static_cast<int32_t>(a - b)`. */
  function SignedSub(a: u32, b: u32): int {
    if Sub(a, b) < HALF then Sub(a, b) else Sub(a, b) - MODULUS
  }

  predicate SeqGreater(a: u32, b: u32) { SignedSub(a, b) > 0 }

  predicate SeqLessOrEqual(a: u32, b: u32) { SignedSub(b, a) >= 0 }

  function SeqMax(a: u32, b: u32): u32 { if SeqGreater(a, b) then a else b }

  function SeqMin(a: u32, b: u32): u32 { if SeqGreater(a, b) then b else a }

  lemma AtZero(isn: u32)
    ensures At(isn, 0) == isn
  {
  }

  lemma AtAt(isn: u32, p: nat, n: nat)
    ensures At(At(isn, p), n) == At(isn, p + n)
  {
  }

  /** Differences of wire numbers are differences of positions, reduced. */
  lemma SubOfPositions(isn: u32, p: nat, q: nat)
    requires -MODULUS < p - q < MODULUS
    ensures Sub(At(isn, p), At(isn, q)) == if p >= q then p - q else p - q + MODULUS
  {
  }

  /** The signed difference of two wire numbers is the true distance of their positions. */
  lemma SignedSubOfPositions(isn: u32, p: nat, q: nat)
    requires -HALF <= p - q < HALF
    ensures SignedSub(At(isn, p), At(isn, q)) == p - q
  {
    SubOfPositions(isn, p, q);
  }

  /** Both comparisons decide the order of the positions, and equality decides equality. */
  lemma ComparePositions(isn: u32, p: nat, q: nat)
    requires -HALF < p - q < HALF
    ensures SeqGreater(At(isn, p), At(isn, q)) <==> p > q
    ensures SeqLessOrEqual(At(isn, p), At(isn, q)) <==> p <= q
    ensures At(isn, p) == At(isn, q) <==> p == q
    ensures SeqMax(At(isn, p), At(isn, q)) == At(isn, Max(p, q))
    ensures SeqMin(At(isn, p), At(isn, q)) == At(isn, Min(p, q))
  {
    SignedSubOfPositions(isn, p, q);
    SignedSubOfPositions(isn, q, p);
  }

  /** The comparisons disagree with positions exactly half the number space apart, and beyond. */
  lemma HalfSpaceIsTheLimit(isn: u32, q: nat)
    ensures !SeqGreater(At(isn, q + HALF), At(isn, q))
    ensures SeqGreater(At(isn, q), At(isn, q + HALF + 1))
  {
    SubOfPositions(isn, q + HALF, q);
    SubOfPositions(isn, q, q + HALF + 1);
  }

  /** Every wire number has exactly one position in any window of the size of the number space. */
  lemma PositionInWindow(isn: u32, q: nat, w: u32) returns (p: nat)
    ensures q <= p < q + MODULUS && At(isn, p) == w && p == q + Sub(w, At(isn, q))
  {
    p := q + Sub(w, At(isn, q));
    AtAt(isn, q, Sub(w, At(isn, q)));
  }
}
