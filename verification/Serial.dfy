/**
 RTP sequence numbers: 32-bit, reserved one after the other, zero skipped, and
 compared by half-space arithmetic (`eigrp_packet_sequence_before`).

 The proofs elsewhere speak of reservation indices 1, 2, 3, ...; this module
 shows that the wire comparison of two sequence numbers is the order of their
 indices for as long as the two lie within `LIVE_SPAN` reservations, and that
 this bound is the best possible.
 */
module Serial {
  const MODULUS: int := 0x1_0000_0000
  const HALF: int := 0x8000_0000

  /** Reservations over which the wire order is the reservation order. */
  const LIVE_SPAN: int := HALF - 1

  type uint32 = x: int | 0 <= x < MODULUS

  /** `eigrp_packet_sequence_before`; `%` is the wrap of unsigned subtraction. */
  predicate Before(first: uint32, second: uint32) {
    first != second && (second - first) % MODULUS < HALF
  }

  /** The sequence number of the n-th reservation: zero is never handed out. */
  function Wire(n: nat): uint32
    requires n >= 1
  {
    (n - 1) % (MODULUS - 1) + 1
  }

  /** What the counter reads after n reservations; a new instance reads zero. */
  predicate CounterAt(counter: uint32, n: nat) {
    counter == Wire(n + 1) || (n == 0 && counter == 0)
  }

  /** How far apart two wire numbers are: the reservations between them, plus
      one when the skipped zero lies between. */
  lemma WireDistance(a: nat, b: nat)
    requires 1 <= a < b && b - a <= LIVE_SPAN
    ensures (Wire(b) - Wire(a)) % MODULUS == b - a || (Wire(b) - Wire(a)) % MODULUS == b - a + 1
    ensures Wire(a) != Wire(b)
    ensures (Wire(b) - Wire(a)) % MODULUS + (Wire(a) - Wire(b)) % MODULUS == MODULUS
    ensures (Wire(b) - Wire(a)) % MODULUS == b - a + 1 <==> Wire(b) < Wire(a)
  {
    var p := MODULUS - 1;
    var x, d := (a - 1) % p, b - a;
    var k := (a - 1) / p;
    assert b - 1 == k * p + (x + d);
    if x + d < p {
      assert b - 1 == k * p + (x + d);
      DivModIs(b - 1, p, k, x + d);
    } else {
      assert b - 1 == (k + 1) * p + (x + d - p);
      DivModIs(b - 1, p, k + 1, x + d - p);
    }
  }

  lemma DivModIs(n: int, p: int, q: int, r: int)
    requires p > 0 && 0 <= r < p && n == q * p + r
    ensures n % p == r
  {
    assert n == (n / p) * p + n % p;
    var t := n / p - q;
    assert t * p == r - n % p;
    assert t >= 1 ==> t * p >= p;
    assert t <= -1 ==> t * p <= -p;
  }

  /** Within the live span the wire comparison is the reservation order. */
  lemma BeforeIsOrder(a: nat, b: nat)
    requires a >= 1 && b >= 1 && -LIVE_SPAN < a - b < LIVE_SPAN
    ensures Before(Wire(a), Wire(b)) <==> a < b
    ensures Wire(a) == Wire(b) <==> a == b
  {
    if a < b {
      WireDistance(a, b);
    } else if b < a {
      WireDistance(b, a);
    }
  }

  /** The bound is exact: at `LIVE_SPAN` reservations the comparison turns
      around as soon as the skipped zero lies between the two numbers. */
  lemma SpanIsTight(a: nat)
    requires a >= 1
    ensures Before(Wire(a), Wire(a + LIVE_SPAN)) <==> Wire(a) < Wire(a + LIVE_SPAN)
    ensures !Before(Wire(MODULUS - 1), Wire(MODULUS - 1 + LIVE_SPAN))
  {
    WireDistance(a, a + LIVE_SPAN);
    WireDistance(MODULUS - 1, MODULUS - 1 + LIVE_SPAN);
    DivModIs(MODULUS - 2, MODULUS - 1, 0, MODULUS - 2);
    DivModIs(MODULUS - 2 + LIVE_SPAN, MODULUS - 1, 1, LIVE_SPAN - 1);
  }

  /** Each number is the previous one plus one, wrapping from the top to one. */
  lemma WireNext(n: nat)
    requires n >= 1
    ensures Wire(n + 1) == if Wire(n) == MODULUS - 1 then 1 else Wire(n) + 1
  {
    var p := MODULUS - 1;
    var k, x := (n - 1) / p, (n - 1) % p;
    assert n - 1 == k * p + x;
    if x + 1 < p {
      DivModIs(n, p, k, x + 1);
    } else {
      assert n == (k + 1) * p + 0;
      DivModIs(n, p, k + 1, 0);
    }
  }

  /** The part of `eigrp_instance_t` that hands out RTP sequence numbers. */
  class SequenceCounter {
    var sequenceNumber: uint32
    ghost var reserved: nat

    ghost predicate Valid()
      reads this
    {
      CounterAt(sequenceNumber, reserved)
    }

    constructor ()
      ensures Valid() && reserved == 0
    {
      sequenceNumber, reserved := 0, 0;
    }

    /** `eigrp_packet_sequence_reserve`: the k-th call returns `Wire(k)`. */
    method Reserve() returns (sequence: uint32)
      requires Valid()
      modifies this
      ensures Valid() && reserved == old(reserved) + 1
      ensures sequence == Wire(reserved) && sequence != 0
    {
      WireNext(reserved + 1);
      if sequenceNumber == 0 {
        sequenceNumber := 1;
      }
      sequence := sequenceNumber;
      sequenceNumber := (sequenceNumber + 1) % MODULUS;
      if sequenceNumber == 0 {
        sequenceNumber := 1;
      }
      reserved := reserved + 1;
    }
  }
}
