/**
 Prefixes: masking, matching and the wire codecs of both address families.
 The reference for masking and matching is the sequence of bits, most
 significant first.
 */
module Prefix {
  import opened Bytes
  import opened Common

  datatype Family = IPv4 | IPv6 | Unknown

  /** `eigrp_prefix_t`: 16 octets of address whatever the family. */
  datatype Prefix = Prefix(family: Family, bytes: seq<Byte>, length: nat)

  predicate WellFormed(p: Prefix) { |p.bytes| == 16 && p.length <= 255 }

  function AddressBytes(f: Family): nat { match f case IPv4 => 4 case IPv6 => 16 case Unknown => 0 }

  function MaxLength(f: Family): nat { 8 * AddressBytes(f) }

  /** `eigrp_prefix_valid` */
  predicate Valid(p: Prefix) { p.family != Unknown && p.length <= MaxLength(p.family) }

  /** IPv4 prefixes have up to 32 bits, IPv6 prefixes up to 128. */
  lemma ValidIs(p: Prefix)
    ensures Valid(p) <==> (p.family == IPv4 && p.length <= 32) || (p.family == IPv6 && p.length <= 128)
  {}

  // ----- bits -----

  const WEIGHTS: seq<int> := [128, 64, 32, 16, 8, 4, 2, 1]

  function BitOf(b: Byte, j: nat): int
    requires j < 8
  {
    (b as int) / WEIGHTS[j] % 2
  }

  function BitAt(s: seq<Byte>, k: nat): int
    requires k < 8 * |s|
  {
    BitOf(s[k / 8], k % 8)
  }

  /** `b & (0xff << (8 - r))` */
  function MaskByte(b: Byte, r: nat): Byte
    requires 0 < r < 8
  {
    b - b % WEIGHTS[r - 1]
  }

  /** The number that the first `r` bits spell. */
  function Top(b: Byte, r: nat): int
    requires r <= 8
  {
    if r == 0 then 0 else (b as int) / WEIGHTS[r - 1]
  }

  lemma Halve(b: nat, w: nat)
    requires w > 0
    ensures b / w == 2 * (b / (2 * w)) + b / w % 2
  {
    var q := b / (2 * w);
    var x := b - 2 * w * q;
    assert 0 <= x < 2 * w;
    if x < w {
      DivIs(b, w, 2 * q, x);
    } else {
      DivIs(b, w, 2 * q + 1, x - w);
    }
  }

  lemma DivIs(n: int, d: int, q: int, r: int)
    requires d > 0 && 0 <= r < d && n == q * d + r
    ensures n / d == q
  {
    var t := n / d - q;
    assert n == n / d * d + n % d;
    assert t * d == r - n % d;
    assert t >= 1 ==> t * d >= d;
    assert t <= -1 ==> t * d <= -d;
  }

  lemma {:induction false} TopsAgree(a: Byte, b: Byte, r: nat)
    requires r <= 8
    ensures Top(a, r) == Top(b, r) <==> forall j | 0 <= j < r :: BitOf(a, j) == BitOf(b, j)
    decreases r
  {
    if r > 0 {
      TopsAgree(a, b, r - 1);
      TopStep(a, r);
      TopStep(b, r);
    }
  }

  lemma TopStep(b: Byte, r: nat)
    requires 0 < r <= 8
    ensures Top(b, r) == 2 * Top(b, r - 1) + BitOf(b, r - 1)
  {
    if r > 1 {
      assert WEIGHTS[r - 2] == 2 * WEIGHTS[r - 1];
      Halve(b, WEIGHTS[r - 1]);
    }
  }

  lemma MaskTop(b: Byte, r: nat)
    requires 0 < r < 8
    ensures MaskByte(b, r) == Top(b, r) * WEIGHTS[r - 1]
  {
    assert b == b / WEIGHTS[r - 1] * WEIGHTS[r - 1] + b % WEIGHTS[r - 1];
  }

  /** An earlier weight is a multiple of a later one. */
  lemma Multiple(i: nat, j: nat) returns (t: nat)
    requires i <= j < 8
    ensures t > 0 && WEIGHTS[i] == WEIGHTS[j] * t
    ensures i < j ==> t % 2 == 0
  {
    t := WEIGHTS[7 - (j - i)];
  }

  lemma MaskKeeps(b: Byte, r: nat, j: nat)
    requires j < r < 8
    ensures BitOf(MaskByte(b, r), j) == BitOf(b, j)
  {
    MaskTop(b, r);
    var t := Multiple(j, r - 1);
    assert WEIGHTS[r - 1] * t > 0;
    QuotientOfMasked(b, WEIGHTS[r - 1], t);
  }

  lemma MaskClears(b: Byte, r: nat, j: nat)
    requires 0 < r <= j < 8
    ensures BitOf(MaskByte(b, r), j) == 0
  {
    MaskTop(b, r);
    var t := Multiple(r - 1, j);
    EvenMultiple(Top(b, r), WEIGHTS[j], t);
  }

  lemma EvenMultiple(x: nat, w: nat, t: nat)
    requires w > 0 && t % 2 == 0
    ensures x * (w * t) / w % 2 == 0
  {
    var h := t / 2;
    assert x * (w * t) == 2 * (x * h) * w + 0;
    DivIs(x * (w * t), w, 2 * (x * h), 0);
  }

  /** Masking keeps the first `r` bits and clears the others. */
  lemma MaskBit(b: Byte, r: nat, j: nat)
    requires 0 < r < 8 && j < 8
    ensures BitOf(MaskByte(b, r), j) == if j < r then BitOf(b, j) else 0
  {
    if j < r {
      MaskKeeps(b, r, j);
    } else {
      MaskClears(b, r, j);
    }
  }

  lemma BelowQuotient(m: nat, z: nat, q: nat, b: nat)
    requires m * z <= b < m * (q + 1)
    ensures m * z <= m * q
  {
    ProductGrows(q + 1, z, m);
    ProductGrows(z, q, m);
  }

  lemma Associate(m: nat, t: nat, x: nat)
    ensures m * t * x == m * (t * x)
  {
  }

  lemma QuotientOfMasked(b: nat, m: nat, t: nat)
    requires m > 0 && t > 0 && m * t > 0
    ensures b / m * m / (m * t) == b / (m * t)
  {
    var w, q, big := m * t, b / m, b / (m * t);
    assert w * big <= b < w * big + w by { DivBounds(b, w); }
    assert m * q <= b < m * (q + 1) by { DivBounds(b, m); }
    Associate(m, t, big);
    BelowQuotient(m, t * big, q, b);
    DivIs(q * m, w, big, q * m - w * big);
  }

  lemma DivBounds(b: nat, d: nat)
    requires d > 0
    ensures d * (b / d) <= b < d * (b / d) + d == d * (b / d + 1)
  {
  }

  // ----- masking -----

  function MaskedBytes(bytes: seq<Byte>, length: nat): (r: seq<Byte>)
    requires length <= 8 * |bytes|
    ensures |r| == |bytes|
  {
    var full, rest := length / 8, length % 8;
    seq(|bytes|, i requires 0 <= i < |bytes| =>
      if i < full then bytes[i] else if i == full && rest > 0 then MaskByte(bytes[i], rest) else 0)
  }

  /** `eigrp_prefix_normalize` */
  function Normalize(p: Prefix): (r: Prefix)
    requires WellFormed(p)
    ensures WellFormed(r) && r.family == p.family && r.length == p.length
  {
    if Valid(p) then p.(bytes := MaskedBytes(p.bytes, p.length)) else p
  }

  /** Masking keeps the bits of the prefix and clears all others. */
  lemma MaskedBitAt(bytes: seq<Byte>, length: nat, k: nat)
    requires length <= 8 * |bytes| && k < 8 * |bytes|
    ensures BitAt(MaskedBytes(bytes, length), k) == if k < length then BitAt(bytes, k) else 0
  {
    var full, rest := length / 8, length % 8;
    assert length == 8 * full + rest && k == 8 * (k / 8) + k % 8;
    if k / 8 == full && rest > 0 {
      MaskBit(bytes[full], rest, k % 8);
    }
  }

  lemma NormalizeIsIdempotent(p: Prefix)
    requires WellFormed(p)
    ensures Normalize(Normalize(p)) == Normalize(p)
  {
    if Valid(p) {
      var once := MaskedBytes(p.bytes, p.length);
      var twice := MaskedBytes(once, p.length);
      forall i | 0 <= i < 16 ensures twice[i] == once[i] {
        forall j | 0 <= j < 8 ensures BitOf(twice[i], j) == BitOf(once[i], j) {
          var k := 8 * i + j;
          assert k / 8 == i && k % 8 == j;
          MaskedBitAt(p.bytes, p.length, k);
          MaskedBitAt(once, p.length, k);
          assert BitAt(twice, k) == BitAt(once, k);
        }
        SameBits(twice[i], once[i]);
      }
      assert twice == once;
    }
  }

  lemma SameBits(a: Byte, b: Byte)
    requires forall j | 0 <= j < 8 :: BitOf(a, j) == BitOf(b, j)
    ensures a == b
  {
    TopsAgree(a, b, 8);
    assert Top(a, 8) == a && Top(b, 8) == b;
  }

  // ----- matching -----

  /** `eigrp_prefix_address_match` on an address of a family. */
  predicate Match(p: Prefix, family: Family, address: seq<Byte>)
    requires WellFormed(p) && |address| == 16
  {
    var full, rest := p.length / 8, p.length % 8;
    && Valid(p) && p.family == family
    && p.bytes[..full] == address[..full]
    && (rest == 0 || (full < AddressBytes(family) && MaskByte(p.bytes[full], rest) == MaskByte(address[full], rest)))
  }

  /** An address matches exactly when it agrees with the prefix in every bit of
      the prefix's length ... */
  lemma MatchIsBitAgreement(p: Prefix, address: seq<Byte>)
    requires WellFormed(p) && |address| == 16 && Valid(p)
    ensures Match(p, p.family, address) <==>
            forall k | 0 <= k < p.length :: BitAt(p.bytes, k) == BitAt(address, k)
  {
    var full, rest := p.length / 8, p.length % 8;
    if Match(p, p.family, address) {
      forall k | 0 <= k < p.length ensures BitAt(p.bytes, k) == BitAt(address, k) {
        if k / 8 < full {
          assert p.bytes[..full][k / 8] == address[..full][k / 8];
        } else {
          MaskBit(p.bytes[full], rest, k % 8);
          MaskBit(address[full], rest, k % 8);
        }
      }
    } else if forall k | 0 <= k < p.length :: BitAt(p.bytes, k) == BitAt(address, k) {
      AgreementMatches(p, address);
    }
  }

  lemma AgreementMatches(p: Prefix, address: seq<Byte>)
    requires WellFormed(p) && |address| == 16 && Valid(p)
    requires forall k | 0 <= k < p.length :: BitAt(p.bytes, k) == BitAt(address, k)
    ensures Match(p, p.family, address)
  {
    var full, rest := p.length / 8, p.length % 8;
    forall i | 0 <= i < full ensures p.bytes[i] == address[i] {
      forall j | 0 <= j < 8 ensures BitOf(p.bytes[i], j) == BitOf(address[i], j) {
        assert (8 * i + j) / 8 == i && (8 * i + j) % 8 == j;
        assert BitAt(p.bytes, 8 * i + j) == BitAt(address, 8 * i + j);
      }
      SameBits(p.bytes[i], address[i]);
    }
    if rest > 0 {
      forall j | 0 <= j < rest ensures BitOf(p.bytes[full], j) == BitOf(address[full], j) {
        assert (8 * full + j) / 8 == full && (8 * full + j) % 8 == j;
        assert BitAt(p.bytes, 8 * full + j) == BitAt(address, 8 * full + j);
      }
      TopsAgree(p.bytes[full], address[full], rest);
      MaskTop(p.bytes[full], rest);
      MaskTop(address[full], rest);
    }
  }

  /** ... and exactly when the address masked to that length is the prefix. */
  lemma MatchIsNormalForm(p: Prefix, address: seq<Byte>)
    requires WellFormed(p) && |address| == 16 && Valid(p)
    ensures Match(p, p.family, address) <==> Normalize(p.(bytes := address)) == Normalize(p)
  {
    var a, b := MaskedBytes(p.bytes, p.length), MaskedBytes(address, p.length);
    var full, rest := p.length / 8, p.length % 8;
    if Match(p, p.family, address) {
      forall i | 0 <= i < 16 ensures a[i] == b[i] {
        assert i < full ==> p.bytes[..full][i] == address[..full][i];
      }
      assert a == b;
    } else if a == b {
      forall k | 0 <= k < p.length ensures BitAt(p.bytes, k) == BitAt(address, k) {
        MaskedBitAt(p.bytes, p.length, k);
        MaskedBitAt(address, p.length, k);
      }
      AgreementMatches(p, address);
    }
  }

  /** `eigrp_prefix_normalize` on the record's octets. */
  method NormalizeInPlace(bytes: array<Byte>, family: Family, length: nat)
    requires bytes.Length == 16 && length <= 255
    modifies bytes
    ensures bytes[..] == Normalize(Prefix(family, old(bytes[..]), length)).bytes
  {
    if family == Unknown || length > MaxLength(family) {
      return;
    }
    var full, rest := length / 8, length % 8;
    ghost var masked := MaskedBytes(bytes[..], length);
    if rest > 0 && full < AddressBytes(family) {
      bytes[full] := MaskByte(bytes[full], rest);
      full := full + 1;
    }
    assert forall i | 0 <= i < full :: bytes[i] == masked[i];
    for i := full to 16
      invariant forall k | 0 <= k < i :: bytes[k] == masked[k]
    {
      bytes[i] := 0;
    }
    assert bytes[..] == masked;
  }

  // ----- codecs -----

  /** The octets of address on the wire: IPv6 sends the octet after an octet
      boundary too, sections 6.8.4 and 6.9.5 of RFC 7868. */
  function WireBytes(family: Family, length: nat): (r: nat)
    requires family != Unknown && length <= MaxLength(family)
    ensures length / 8 <= r <= AddressBytes(family) && length <= 8 * r
    ensures r <= if family == IPv4 then 4 else 16
    ensures length == 0 ==> r == 0
    ensures length > 0 && family == IPv4 ==> 8 * (r - 1) < length <= 8 * r
    ensures 0 < length < 128 && family == IPv6 ==> 8 * (r - 1) <= length < 8 * r
    ensures length == 128 && family == IPv6 ==> r == 16
  {
    if length == 0 then 0
    else if family == IPv4 then (length - 1) / 8 + 1
    else if length == 128 then 16
    else length / 8 + 1
  }

  function Encode(family: Family, p: Prefix): seq<Byte>
    requires WellFormed(p) && family != Unknown
  {
    if p.family != family || !Valid(p) then []
    else [p.length as Byte] + Normalize(p).bytes[..WireBytes(family, p.length)]
  }

  datatype Decoded = Failed | Read(prefix: Prefix, consumed: nat)

  function Decode(family: Family, wire: seq<Byte>): Decoded
    requires family != Unknown
  {
    if |wire| == 0 || wire[0] > MaxLength(family) then Failed
    else
      var length := wire[0] as nat;
      var n := WireBytes(family, length);
      if |wire| - 1 < n then Failed
      else Read(Normalize(Prefix(family, wire[1..n + 1] + Zeros(16 - n), length)), n + 1)
  }

  lemma MaskedTail(bytes: seq<Byte>, length: nat, n: nat)
    requires |bytes| == 16 && n <= 16 && length <= 8 * n
    ensures MaskedBytes(bytes, length)[..n] + Zeros(16 - n) == MaskedBytes(bytes, length)
  {
  }

  /** Whatever follows on the wire, decoding what was encoded gives the
      normalized prefix and consumes exactly what was produced. */
  lemma RoundTrip(family: Family, p: Prefix, rest: seq<Byte>)
    requires WellFormed(p) && family != Unknown && p.family == family && Valid(p)
    ensures Decode(family, Encode(family, p) + rest) == Read(Normalize(p), |Encode(family, p)|)
  {
    var n := WireBytes(family, p.length);
    var wire := Encode(family, p) + rest;
    MaskedTail(p.bytes, p.length, n);
    assert wire[1..n + 1] == Normalize(p).bytes[..n];
    NormalizeIsIdempotent(p);
  }

  /** Encoding what was decoded gives back the octets consumed exactly when
      these had no bit set beyond the prefix. */
  lemma ReencodeIsCanonical(family: Family, wire: seq<Byte>)
    requires family != Unknown && Decode(family, wire).Read?
    ensures var d := Decode(family, wire);
            && d.consumed <= |wire|
            && (Encode(family, d.prefix) == wire[..d.consumed] <==>
                forall k | d.prefix.length <= k < 8 * (d.consumed - 1) :: BitAt(wire[1..d.consumed], k) == 0)
  {
    var d := Decode(family, wire);
    var n := d.consumed - 1;
    var sent := wire[1..n + 1];
    var raw := Prefix(family, sent + Zeros(16 - n), d.prefix.length);
    NormalizeIsIdempotent(raw);
    var back := Normalize(raw).bytes[..n];
    assert Encode(family, d.prefix) == [wire[0]] + back;
    assert wire[..n + 1] == [wire[0]] + sent;
    CleanOctets(raw.bytes, raw.length, n);
    assert forall k | 0 <= k < 8 * n :: BitAt(sent, k) == BitAt(raw.bytes, k);
    assert raw.bytes[..n] == sent;
    assert back == sent <==> [wire[0]] + back == [wire[0]] + sent by {
      assert ([wire[0]] + back)[1..] == back && ([wire[0]] + sent)[1..] == sent;
    }
  }

  /** Masking leaves octets alone iff they have no bit set beyond the length. */
  lemma CleanOctets(bytes: seq<Byte>, length: nat, n: nat)
    requires length <= 8 * |bytes| && n <= |bytes|
    ensures MaskedBytes(bytes, length)[..n] == bytes[..n] <==> forall k | length <= k < 8 * n :: BitAt(bytes, k) == 0
  {
    var masked := MaskedBytes(bytes, length);
    if masked[..n] == bytes[..n] {
      forall k | length <= k < 8 * n ensures BitAt(bytes, k) == 0 {
        MaskedBitAt(bytes, length, k);
        assert masked[k / 8] == masked[..n][k / 8] == bytes[..n][k / 8];
      }
    } else {
      var i :| 0 <= i < n && masked[..n][i] != bytes[..n][i];
      DifferentByte(bytes, length, i);
    }
  }

  /** An octet changed by masking has a bit set beyond the length. */
  lemma DifferentByte(bytes: seq<Byte>, length: nat, i: nat)
    requires length <= 8 * |bytes| && i < |bytes| && MaskedBytes(bytes, length)[i] != bytes[i]
    ensures exists k :: 8 * i <= k < 8 * i + 8 && length <= k && BitAt(bytes, k) != 0
  {
    if forall j | 0 <= j < 8 :: BitOf(MaskedBytes(bytes, length)[i], j) == BitOf(bytes[i], j) {
      SameBits(MaskedBytes(bytes, length)[i], bytes[i]);
      assert false;
    }
    var j :| 0 <= j < 8 && BitOf(MaskedBytes(bytes, length)[i], j) != BitOf(bytes[i], j);
    var k := 8 * i + j;
    assert k / 8 == i && k % 8 == j;
    MaskedBitAt(bytes, length, k);
    assert BitAt(bytes, k) != 0;
  }

  // ----- on a stream -----

  /** `eigrp_stream_t`: `data` is what lies before `endp`. */
  class Stream {
    var data: seq<Byte>
    var getp: nat

    predicate Valid()
      reads this
    {
      getp <= |data|
    }

    method Get(size: nat) returns (bytes: seq<Byte>)
      requires Valid() && getp + size <= |data|
      modifies this`getp
      ensures Valid() && getp == old(getp) + size && bytes == data[old(getp)..getp]
    {
      bytes := data[getp..getp + size];
      getp := getp + size;
    }

    /** `eigrp_ipv4_packet_prefix_decode`, `eigrp_ipv6_packet_prefix_decode`: a
        failed decode leaves the read position where it was. */
    method PrefixDecode(family: Family) returns (d: Decoded)
      requires Valid() && family != Unknown
      modifies this`getp
      ensures Valid()
      ensures d == Decode(family, data[old(getp)..])
      ensures getp == old(getp) + if d.Read? then d.consumed else 0
    {
      if |data| - getp < 1 {
        return Failed;
      }
      var start := getp;
      var first := Get(1);
      if first[0] > MaxLength(family) {
        getp := start;
        return Failed;
      }
      var n := WireBytes(family, first[0]);
      if |data| - getp < n {
        getp := start;
        return Failed;
      }
      var bytes := Get(n);
      assert data[start..][1..n + 1] == bytes;
      return Read(Normalize(Prefix(family, bytes + Zeros(16 - n), first[0])), n + 1);
    }

    /** The encoders append; the result is the number of octets produced. */
    method PrefixEncode(family: Family, p: Prefix) returns (produced: nat)
      requires Valid() && family != Unknown && WellFormed(p)
      modifies this`data
      ensures Valid()
      ensures data == old(data) + Encode(family, p)
      ensures produced == |Encode(family, p)|
    {
      if p.family != family || p.length > MaxLength(family) {
        return 0;
      }
      var normalized := Normalize(p);
      var n := WireBytes(family, normalized.length);
      data := data + [normalized.length as Byte];
      if n != 0 {
        data := data + normalized.bytes[..n];
      }
      return n + 1;
    }
  }
}
