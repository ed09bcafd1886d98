/** Sequence numbers of Babel routes: 16-bit values compared modulo 2^16.
    A number is modelled unbounded; what the daemon stores and compares is its
    low 16 bits. */
module BabelSeqno {

  const MODULUS: int := 0x10000
  const HALF: int := 0x8000

  type Seqno = s: int | 0 <= s < 0x10000

  /** What a 16-bit field keeps of an unbounded sequence number. */
  function Wire(n: int): Seqno {
    n % MODULUS
  }

  /** seqno_compare: bit 15 of the difference decides. */
  function Compare(s1: Seqno, s2: Seqno): int {
    if s1 == s2 then 0 else if (s2 - s1) % MODULUS >= HALF then 1 else -1
  }

  /** seqno_plus. */
  function Plus(s: Seqno, k: int): Seqno {
    (s + k) % MODULUS
  }

  /** seqno_minus: the difference read back as a signed 16-bit value. */
  function Minus(s1: Seqno, s2: Seqno): int {
    var d := (s1 - s2) % MODULUS;
    if d >= HALF then d - MODULUS else d
  }

  function Sign(d: int): int {
    if d > 0 then 1 else if d < 0 then -1 else 0
  }

  lemma {:induction false} ModShift(x: int, q: int)
    ensures (x + q * MODULUS) % MODULUS == x % MODULUS
  {
    assert (x + q * MODULUS) / MODULUS == x / MODULUS + q;
  }

  /** The exact set of distances at which the 16-bit comparison orders two
      unbounded sequence numbers correctly.  Distance 2^15 is answered "newer"
      in both directions, so the condition is not symmetric. */
  lemma {:induction false} CompareIsExact(n1: int, n2: int)
    ensures Compare(Wire(n1), Wire(n2)) == Sign(n1 - n2) <==>
            n1 == n2
            || (n1 > n2 && 0 < (n1 - n2) % MODULUS <= HALF)
            || (n1 < n2 && 0 < (n2 - n1) % MODULUS < HALF)
  {
    WireDifference(n1, n2);
    WireDifference(n2, n1);
    var d := (n1 - n2) % MODULUS;
    assert (n2 - n1) % MODULUS == if d == 0 then 0 else MODULUS - d by {
      ModShift(-d, -((n1 - n2) / MODULUS));
      assert n2 - n1 == -d + -((n1 - n2) / MODULUS) * MODULUS;
    }
  }

  /** The difference of the stored values is the stored difference. */
  lemma {:induction false} WireDifference(n1: int, n2: int)
    ensures (Wire(n1) - Wire(n2)) % MODULUS == (n1 - n2) % MODULUS
    ensures Wire(n1) == Wire(n2) <==> (n1 - n2) % MODULUS == 0
  {
    var q := n1 / MODULUS - n2 / MODULUS;
    assert n1 - n2 == (Wire(n1) - Wire(n2)) + q * MODULUS;
    ModShift(Wire(n1) - Wire(n2), q);
    assert -MODULUS < Wire(n1) - Wire(n2) < MODULUS;
  }

  predicate Close(n1: int, n2: int) {
    -HALF < n1 - n2 < HALF
  }

  /** Inside a window narrower than 2^15 the daemon's order is the order on
      unbounded numbers, and equality of stored values is equality. */
  lemma {:induction false} CloseCompare(n1: int, n2: int)
    requires Close(n1, n2)
    ensures Compare(Wire(n1), Wire(n2)) == Sign(n1 - n2)
    ensures Wire(n1) == Wire(n2) <==> n1 == n2
  {
    CompareIsExact(n1, n2);
  }

  /** seqno_minus undoes seqno_plus over the whole signed range, and only there. */
  lemma {:induction false} MinusUndoesPlus(s: Seqno, k: int)
    ensures Minus(Plus(s, k), s) == k <==> -HALF <= k < HALF
  {
    var q := (s + k) / MODULUS;
    assert Plus(s, k) - s == k + -q * MODULUS;
    ModShift(k, -q);
  }
}
