/** The Internet checksum of RFC 1071 over a packet of any length. */
module Checksum {
  import opened Bytes

  /** The 16-bit words added up; an odd last octet counts as the high one. */
  function WordSum(p: seq<Byte>): nat
    decreases |p|
  {
    if |p| == 0 then 0
    else if |p| == 1 then Pair(p[0], 0)
    else Pair(p[0], p[1]) + WordSum(p[2..])
  }

  /** End-around carries until the sum fits 16 bits. */
  function Fold(sum: nat): (r: nat)
    ensures r <= 0xffff
  {
    if sum < 0x1_0000 then sum else Fold(sum % 0x1_0000 + sum / 0x1_0000)
  }

  /** `eigrp_checksum` */
  function Of(p: seq<Byte>): (r: nat)
    ensures r <= 0xffff
  {
    0xffff - Fold(WordSum(p))
  }

  /** Folding takes away a multiple of 2^16 - 1 and keeps zero apart. */
  lemma {:induction false} FoldIsResidue(sum: nat) returns (t: nat)
    ensures sum == Fold(sum) + t * 0xffff
    ensures Fold(sum) == 0 <==> sum == 0
    decreases sum
  {
    if sum < 0x1_0000 {
      t := 0;
    } else {
      var q, r := sum / 0x1_0000, sum % 0x1_0000;
      t := FoldIsResidue(r + q);
      t := t + q;
    }
  }

  lemma {:induction false} WordSumBound(p: seq<Byte>)
    ensures WordSum(p) <= 0x1_0000 * |p|
    decreases |p|
  {
    if |p| > 1 {
      WordSumBound(p[2..]);
    }
  }

  /** Writing the checksum field of the header changes the sum by that word. */
  lemma FieldInSum(p: seq<Byte>, c: nat)
    requires |p| >= 4 && p[2] == 0 && p[3] == 0 && c <= 0xffff
    ensures WordSum(Put(p, 2, FromWord(c))) == WordSum(p) + c
  {
    var q := Put(p, 2, FromWord(c));
    assert q[2..][0] == FromWord(c)[0] && q[2..][1] == FromWord(c)[1];
    assert p[2..][0] == 0 && p[2..][1] == 0;
    assert q[2..][2..] == p[2..][2..];
    assert WordSum(q) == Pair(q[0], q[1]) + WordSum(q[2..]);
    assert WordSum(p) == Pair(p[0], p[1]) + WordSum(p[2..]);
  }

  /** Which words complete a sum to the all-ones form of zero. */
  lemma Complement(sum: nat, c: nat)
    requires c <= 0xffff
    ensures Fold(sum + c) == 0xffff <==> c == 0xffff - Fold(sum) || (Fold(sum) == 0xffff && c == 0xffff)
  {
    var t := FoldIsResidue(sum);
    var u := FoldIsResidue(sum + c);
    var k := u - t;
    assert Fold(sum) + c - Fold(sum + c) == k * 0xffff;
    assert -2 < k < 3;
    if Fold(sum + c) == 0xffff {
      assert k == 0 || k == 1 || k == -1;
    }
  }

  /** Octets that are zero count nothing, also a zero that fills the last word. */
  lemma {:induction false} ZerosCountNothing(n: nat)
    ensures WordSum(Zeros(n)) == 0
    ensures forall b: Byte :: WordSum([b]) == 256 * b
  {
    if n > 1 {
      assert Zeros(n)[2..] == Zeros(n - 2);
      ZerosCountNothing(n - 2);
    }
  }

  /** Each octet counts with its weight, the even ones as the high half of a word. */
  lemma {:induction false} OctetInSum(p: seq<Byte>, i: nat, b: Byte)
    requires i < |p|
    ensures WordSum(p[i := b]) - WordSum(p) == (b - p[i]) * (if i % 2 == 0 then 256 else 1)
    decreases |p|
  {
    if i >= 2 {
      assert p[i := b][2..] == p[2..][i - 2 := b];
      assert p[i := b][0] == p[0] && p[i := b][1] == p[1];
      OctetInSum(p[2..], i - 2, b);
    } else if |p| > 1 {
      assert p[i := b][2..] == p[2..];
    }
  }

  /** A packet that sums to zero no longer does with any one octet altered. */
  lemma AlteredOctetShows(p: seq<Byte>, i: nat, b: Byte)
    requires i < |p| && Of(p) == 0 && b != p[i]
    ensures Of(p[i := b]) != 0
  {
    OctetInSum(p, i, b);
    var x: int, y: int := WordSum(p), WordSum(p[i := b]);
    var t := FoldIsResidue(x);
    var u := FoldIsResidue(y);
    var k: int := (u as int) - t;
    assert y - x == Fold(y) - Fold(x) + k * 0xffff;
    assert -0xffff < y - x < 0xffff && y != x;
  }

  /** The packet, its checksum field zero before, sums to zero over its whole
      length, odd or even, exactly when the field holds the checksum (or the
      other form of zero). */
  lemma SealedSumsToZero(p: seq<Byte>, c: nat)
    requires |p| >= 4 && p[2] == 0 && p[3] == 0 && c <= 0xffff
    ensures Of(Put(p, 2, FromWord(c))) == 0 <==> c == Of(p) || (Of(p) == 0 && c == 0xffff)
  {
    FieldInSum(p, c);
    Complement(WordSum(p), c);
  }

  method Compute(a: array<Byte>, length: nat) returns (r: nat)
    requires length <= a.Length && length <= 0xffff
    ensures r == Of(a[..length])
  {
    var sum: nat := 0;
    var at, left := 0, length;
    while left > 1
      invariant at + left == length
      invariant sum + WordSum(a[at..length]) == WordSum(a[..length])
    {
      assert a[at..length][2..] == a[at + 2..length];
      sum := sum + Pair(a[at], a[at + 1]);
      at := at + 2;
      left := left - 2;
    }
    if left > 0 {
      sum := sum + Pair(a[at], 0);
    }
    WordSumBound(a[..length]);
    assert sum == WordSum(a[..length]) < 0x1_0000_0000;
    ghost var total := sum;
    while sum >= 0x1_0000
      invariant Fold(sum) == Fold(total)
      decreases sum
    {
      sum := sum % 0x1_0000 + sum / 0x1_0000;
    }
    r := 0xffff - sum;
  }
}
