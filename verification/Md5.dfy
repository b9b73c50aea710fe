/**
 MD5 streaming: the buffer, the block loop, the bit counter and the padding.
 The compression function is a parameter.
 */
module Md5 {
  import opened Bytes
  import Serial

  const BUFLEN: nat := 64
  const TWO32: int := 0x1_0000_0000
  const TWO64: int := 0x1_0000_0000_0000_0000

  type State = (nat, nat, nat, nat)

  const INITIAL: State := (0x67452301, 0xefcdab89, 0x98badcfe, 0x10325476)

  type Compression = (State, seq<Byte>) -> State

  /** The state after the 64-octet blocks of `m`. */
  function Absorb(c: Compression, s: State, m: seq<Byte>): State
    requires |m| % 64 == 0
    decreases |m|
  {
    if m == [] then s else Absorb(c, c(s, m[..64]), m[64..])
  }

  lemma {:induction false} AbsorbConcat(c: Compression, s: State, a: seq<Byte>, b: seq<Byte>)
    requires |a| % 64 == 0 && |b| % 64 == 0
    ensures Absorb(c, s, a + b) == Absorb(c, Absorb(c, s, a), b)
    decreases |a|
  {
    if a == [] {
      assert a + b == b;
    } else {
      assert (a + b)[..64] == a[..64] && (a + b)[64..] == a[64..] + b;
      AbsorbConcat(c, c(s, a[..64]), a[64..], b);
    }
  }

  lemma AbsorbBlock(c: Compression, s: State, a: seq<Byte>, block: seq<Byte>)
    requires |a| % 64 == 0 && |block| == 64
    ensures Absorb(c, s, a + block) == c(Absorb(c, s, a), block)
  {
    AbsorbConcat(c, s, a, block);
    assert block[..64] == block && block[64..] == [];
    assert Absorb(c, Absorb(c, s, a), block) == Absorb(c, c(Absorb(c, s, a), block), []);
  }

  /** The 64-bit length, low-order octet first. */
  function LittleEndian(n: nat, octets: nat): (r: seq<Byte>)
    ensures |r| == octets
  {
    if octets == 0 then [] else [n % 256] + LittleEndian(n / 256, octets - 1)
  }

  /** Section 3.1 of RFC 1321: one bit, then zeros up to 56 modulo 64. */
  function PadZeros(length: nat): (k: nat)
    ensures k < 64 && (length + 1 + k) % 64 == 56
  {
    (119 - length % 64) % 64
  }

  /** Sections 3.1 and 3.2: the message with its padding and a length. */
  function Padded(m: seq<Byte>, bits: nat): (r: seq<Byte>)
    ensures |r| % 64 == 0
  {
    m + [0x80] + Zeros(PadZeros(|m|)) + LittleEndian(bits, 8)
  }

  function Pow256(k: nat): nat { if k == 0 then 1 else 256 * Pow256(k - 1) }

  /** The number that octets spell, low-order octet first. */
  function Value(s: seq<Byte>): nat {
    if s == [] then 0 else s[0] + 256 * Value(s[1..])
  }

  lemma {:induction false} LittleEndianSpells(n: nat, octets: nat)
    requires n < Pow256(octets)
    ensures Value(LittleEndian(n, octets)) == n
    decreases octets
  {
    if octets > 0 {
      LittleEndianSpells(n / 256, octets - 1);
      assert LittleEndian(n, octets)[1..] == LittleEndian(n / 256, octets - 1);
    }
  }

  /** Section 3.3 of RFC 1321: the four words as octets, low-order first. */
  lemma InitialWords()
    ensures INITIAL.0 == Value([0x01, 0x23, 0x45, 0x67]) && INITIAL.1 == Value([0x89, 0xab, 0xcd, 0xef])
    ensures INITIAL.2 == Value([0xfe, 0xdc, 0xba, 0x98]) && INITIAL.3 == Value([0x76, 0x54, 0x32, 0x10])
  {
    FourOctets(0x01, 0x23, 0x45, 0x67);
    FourOctets(0x89, 0xab, 0xcd, 0xef);
    FourOctets(0xfe, 0xdc, 0xba, 0x98);
    FourOctets(0x76, 0x54, 0x32, 0x10);
  }

  lemma FourOctets(a: Byte, b: Byte, c: Byte, d: Byte)
    ensures Value([a, b, c, d]) == a + 0x100 * b + 0x1_0000 * c + 0x100_0000 * d
  {
    assert [d][1..] == [] && [c, d][1..] == [d] && [b, c, d][1..] == [c, d] && [a, b, c, d][1..] == [b, c, d];
    assert Value([d]) == d && Value([c, d]) == c + 256 * Value([d]);
    assert Value([b, c, d]) == b + 256 * Value([c, d]);
  }

  /** Octet by octet: the message, a one bit, as few zeros as make whole blocks,
      and the counter in eight octets, low-order first. */
  lemma PaddedIs(m: seq<Byte>, bits: nat)
    requires bits < 0x1_0000_0000_0000_0000
    ensures var p := Padded(m, bits);
            && |p| % 64 == 0 && |m| + 9 <= |p| < |m| + 9 + 64
            && p[..|m|] == m && p[|m|] == 128
            && (forall i | |m| < i < |p| - 8 :: p[i] == 0)
            && Value(p[|p| - 8..]) == bits
  {
    var p := Padded(m, bits);
    assert Pow256(8) == 256 * 256 * 256 * 256 * (256 * 256 * 256 * 256 * Pow256(0));
    LittleEndianSpells(bits, 8);
    assert p[|p| - 8..] == LittleEndian(bits, 8);
  }

  // ----- the bit counter -----

  /** `md5_n += len * 8`, the product in 32 bits, the sum in 64. */
  function Counted(n: nat, length: nat): nat {
    (n + length * 8 % TWO32) % TWO64
  }

  function CountAll(n: nat, chunks: seq<seq<Byte>>): nat
    decreases |chunks|
  {
    if chunks == [] then n else CountAll(Counted(n, |chunks[0]|), chunks[1..])
  }

  function Flatten(chunks: seq<seq<Byte>>): seq<Byte>
    decreases |chunks|
  {
    if chunks == [] then [] else chunks[0] + Flatten(chunks[1..])
  }

  /** How often the 32-bit product lost a carry. */
  function Lost(chunks: seq<seq<Byte>>): nat
    decreases |chunks|
  {
    if chunks == [] then 0 else |chunks[0]| / 0x2000_0000 + Lost(chunks[1..])
  }

  lemma CountedIs(n: nat, length: nat) returns (t: nat)
    ensures n + 8 * length == Counted(n, length) + TWO32 * (length / 0x2000_0000) + TWO64 * t
  {
    var q, r := length / 0x2000_0000, length % 0x2000_0000;
    assert length * 8 == q * TWO32 + r * 8;
    Serial.DivModIs(length * 8, TWO32, q, r * 8);
    t := (n + r * 8) / TWO64;
  }

  lemma {:induction false} CountAllIs(n: nat, chunks: seq<seq<Byte>>) returns (t: nat)
    requires n < TWO64
    ensures CountAll(n, chunks) < TWO64
    ensures n + 8 * |Flatten(chunks)| == CountAll(n, chunks) + TWO32 * Lost(chunks) + TWO64 * t
    decreases |chunks|
  {
    if chunks == [] {
      t := 0;
    } else {
      var t1 := CountedIs(n, |chunks[0]|);
      var t2 := CountAllIs(Counted(n, |chunks[0]|), chunks[1..]);
      t := t1 + t2;
    }
  }

  /** The counter holds the bit length modulo 2^64 exactly when the carries lost
      by the 32-bit products cancel modulo 2^32. */
  lemma CounterExact(chunks: seq<seq<Byte>>)
    ensures CountAll(0, chunks) == 8 * |Flatten(chunks)| % TWO64 <==> Lost(chunks) % TWO32 == 0
  {
    var t := CountAllIs(0, chunks);
    var bits, n, lost := 8 * |Flatten(chunks)|, CountAll(0, chunks), Lost(chunks);
    if lost % TWO32 == 0 {
      var u := lost / TWO32;
      assert bits == (u + t) * TWO64 + n;
      Serial.DivModIs(bits, TWO64, u + t, n);
    }
    if n == bits % TWO64 {
      var q := bits / TWO64;
      assert bits == q * TWO64 + n;
      assert lost == (q - t) * TWO32 + 0;
      Serial.DivModIs(lost, TWO32, q - t, 0);
    }
  }

  /** Chunks below 2^29 octets lose nothing ... */
  lemma {:induction false} SmallChunksLoseNothing(chunks: seq<seq<Byte>>)
    ensures Lost(chunks) == 0 <==> forall i | 0 <= i < |chunks| :: |chunks[i]| < 0x2000_0000
    decreases |chunks|
  {
    if chunks != [] {
      SmallChunksLoseNothing(chunks[1..]);
      assert forall i | 0 < i < |chunks| :: chunks[i] == chunks[1..][i - 1];
    }
  }

  /** ... and one of 2^29 octets counts as nothing. */
  lemma HalfGigabyteUncounted(m: seq<Byte>)
    requires |m| == 0x2000_0000
    ensures CountAll(0, [m]) == 0
  {
    assert [m][1..] == [];
  }

  // ----- the context -----

  class Context {
    const compress: Compression
    const buf: array<Byte>
    var state: State
    var n: nat
    var i: nat
    ghost var message: seq<Byte>

    constructor (compress: Compression)
      ensures Valid() && fresh(buf) && message == [] && n == 0 && this.compress == compress
    {
      this.compress := compress;
      buf := new Byte[64](_ => 0);
      state := INITIAL;
      n, i := 0, 0;
      message := [];
      new;
      assert Whole() == [];
    }

    ghost function Whole(): seq<Byte>
      reads this
      requires i <= |message|
    {
      message[..|message| - i]
    }

    /** Whole blocks are in the state, the rest of the message in the buffer. */
    ghost predicate Valid()
      reads this, buf
    {
      && buf.Length == 64 && i < 64 && i <= |message|
      && |Whole()| % 64 == 0
      && buf[..i] == message[|message| - i..]
      && state == Absorb(compress, INITIAL, Whole())
    }

    /** `eigrp_md5_update`; the loop index stays below 2^32. */
    method Update(input: seq<Byte>)
      requires Valid() && |input| + 64 < TWO32
      modifies this`state, this`n, this`i, this`message, buf
      ensures Valid() && message == old(message) + input
      ensures n == Counted(old(n), |input|)
    {
      n := (n + |input| * 8 % TWO32) % TWO64;
      if |input| >= BUFLEN - i {
        Complete(input);
      } else {
        Append(input);
      }
    }

    method Append(input: seq<Byte>)
      requires Valid() && |input| < BUFLEN - i
      modifies this`i, this`message, buf
      ensures Valid() && message == old(message) + input
    {
      ghost var whole, rest := Whole(), buf[..i];
      Copy(buf, i, input);
      message := message + input;
      i := i + |input|;
      assert Whole() == whole;
      assert buf[..i] == rest + input == message[|message| - i..];
    }

    /** Fill the buffer, run the whole blocks, keep the rest. */
    method Complete(input: seq<Byte>)
      requires Valid() && |input| >= BUFLEN - i
      modifies this`state, this`i, this`message, buf
      ensures Valid() && message == old(message) + input
    {
      var gap := BUFLEN - i;
      ghost var shift, total := |message|, message + input;
      Fill(input[..gap]);
      assert total[..shift + gap] == message + input[..gap];
      assert total[shift..] == input;
      var at := Blocks(input, gap, shift, total);
      assert total[shift + at..] == input[at..];
      Keep(input[at..], total);
    }

    /** What is left of the input waits in the buffer. */
    method Keep(rest: seq<Byte>, ghost total: seq<Byte>)
      requires buf.Length == 64 && |rest| < 64 && |rest| <= |total|
      requires (|total| - |rest|) % 64 == 0 && total[|total| - |rest|..] == rest
      requires state == Absorb(compress, INITIAL, total[..|total| - |rest|])
      modifies this`i, this`message, buf
      ensures Valid() && message == total
    {
      message := total;
      i := |rest|;
      Copy(buf, 0, rest);
      assert buf[..i] == rest;
    }

    /** The buffered octets and the first of the input make a block. */
    method Fill(head: seq<Byte>)
      requires Valid() && |head| == BUFLEN - i
      modifies this`state, buf
      ensures (|message| + |head|) % 64 == 0
      ensures state == Absorb(compress, INITIAL, message + head)
    {
      ghost var whole, rest := Whole(), buf[..i];
      Copy(buf, i, head);
      assert buf[..] == rest + head;
      AbsorbBlock(compress, INITIAL, whole, buf[..]);
      state := compress(state, buf[..]);
      assert message + head == whole + (rest + head);
    }

    /** The loop over the whole blocks of the input; `shift` is where the input
        starts in the message `total`. */
    method Blocks(input: seq<Byte>, start: nat, ghost shift: nat, ghost total: seq<Byte>) returns (at: nat)
      requires start <= |input| && |total| == shift + |input| && total[shift..] == input
      requires (shift + start) % 64 == 0
      requires state == Absorb(compress, INITIAL, total[..shift + start])
      modifies this`state
      ensures start <= at <= |input| < at + 64
      ensures (shift + at) % 64 == 0
      ensures state == Absorb(compress, INITIAL, total[..shift + at])
    {
      at := start;
      while at + BUFLEN <= |input|
        invariant start <= at <= |input|
        invariant (shift + at) % 64 == 0
        invariant state == Absorb(compress, INITIAL, total[..shift + at])
      {
        AbsorbBlock(compress, INITIAL, total[..shift + at], input[at..at + 64]);
        assert total[..shift + at] + input[at..at + 64] == total[..shift + at + 64];
        state := compress(state, input[at..at + 64]);
        at := at + BUFLEN;
      }
    }

    /** `eigrp_md5_pad`: the state is that of the padded message. */
    method Pad()
      requires Valid()
      modifies this`state, buf
      ensures state == Absorb(compress, INITIAL, Padded(message, n))
    {
      ghost var whole, rest := Whole(), buf[..i];
      assert message == whole + rest;
      var gap := BUFLEN - i;
      if gap > 8 {
        PaddedShort(whole, rest, n);
        Copy(buf, i, PADDING[..gap - 8]);
        Copy(buf, 56, LittleEndian(n, 8));
        assert buf[..] == rest + PADDING[..gap - 8] + LittleEndian(n, 8);
      } else {
        PaddedLong(whole, rest, n);
        Copy(buf, i, PADDING[..gap]);
        ghost var first := buf[..];
        assert first == rest + PADDING[..gap];
        AbsorbBlock(compress, INITIAL, whole, first);
        state := compress(state, buf[..]);
        Copy(buf, 0, PADDING[gap..gap + 56]);
        Copy(buf, 56, LittleEndian(n, 8));
        assert buf[..] == PADDING[gap..gap + 56] + LittleEndian(n, 8);
        whole := whole + first;
      }
      AbsorbBlock(compress, INITIAL, whole, buf[..]);
      state := compress(state, buf[..]);
    }
  }

  const PADDING: seq<Byte> := [0x80] + Zeros(63)

  lemma PaddedShort(whole: seq<Byte>, rest: seq<Byte>, n: nat)
    requires |whole| % 64 == 0 && |rest| < 56
    ensures Padded(whole + rest, n) == whole + (rest + PADDING[..56 - |rest|] + LittleEndian(n, 8))
  {
    PadLength(|whole + rest|, |rest|);
    assert PADDING[..56 - |rest|] == [0x80] + Zeros(55 - |rest|);
  }

  lemma PaddedLong(whole: seq<Byte>, rest: seq<Byte>, n: nat)
    requires |whole| % 64 == 0 && 56 <= |rest| < 64
    ensures var gap := 64 - |rest|;
            Padded(whole + rest, n)
              == whole + (rest + PADDING[..gap]) + (PADDING[gap..gap + 56] + LittleEndian(n, 8))
  {
    var gap := 64 - |rest|;
    PadLength(|whole + rest|, |rest|);
    assert PADDING[..gap] + PADDING[gap..gap + 56] == [0x80] + Zeros(119 - |rest|);
  }

  lemma PadLength(length: nat, i: nat)
    requires i < 64 && i <= length && (length - i) % 64 == 0
    ensures PadZeros(length) == if i < 56 then 55 - i else 119 - i
  {
    assert length % 64 == i;
  }

  /** Init, update for every chunk, final: for every split of the message the
      blocks fed to the compression function are those of the message, one bit,
      zeros and the counted length -- the true length, as sections 3.1 and 3.2
      of RFC 1321 have it, when every chunk is below 2^29 octets. */
  method Hash(compress: Compression, chunks: seq<seq<Byte>>) returns (digest: State)
    requires forall k | 0 <= k < |chunks| :: |chunks[k]| + 64 < TWO32
    ensures digest == Absorb(compress, INITIAL, Padded(Flatten(chunks), CountAll(0, chunks)))
    ensures (forall k | 0 <= k < |chunks| :: |chunks[k]| < 0x2000_0000) ==>
              digest == Absorb(compress, INITIAL, Padded(Flatten(chunks), 8 * |Flatten(chunks)| % TWO64))
  {
    var ctx := UpdateAll(compress, chunks);
    ctx.Pad();
    digest := ctx.state;
    if forall k | 0 <= k < |chunks| :: |chunks[k]| < 0x2000_0000 {
      CountIsLength(chunks);
    }
  }

  lemma ChunkAt(chunks: seq<seq<Byte>>, k: nat, front: seq<Byte>, n: nat)
    requires k < |chunks|
    ensures front + Flatten(chunks[k..]) == front + chunks[k] + Flatten(chunks[k + 1..])
    ensures CountAll(n, chunks[k..]) == CountAll(Counted(n, |chunks[k]|), chunks[k + 1..])
  {
    assert chunks[k..][0] == chunks[k] && chunks[k..][1..] == chunks[k + 1..];
  }

  method UpdateAll(compress: Compression, chunks: seq<seq<Byte>>) returns (ctx: Context)
    requires forall k | 0 <= k < |chunks| :: |chunks[k]| + 64 < TWO32
    ensures fresh(ctx) && fresh(ctx.buf) && ctx.Valid() && ctx.compress == compress
    ensures ctx.message == Flatten(chunks) && ctx.n == CountAll(0, chunks)
  {
    ctx := new Context(compress);
    for k := 0 to |chunks|
      invariant ctx.Valid() && fresh(ctx) && fresh(ctx.buf)
      invariant ctx.compress == compress
      invariant ctx.message + Flatten(chunks[k..]) == Flatten(chunks)
      invariant CountAll(ctx.n, chunks[k..]) == CountAll(0, chunks)
    {
      ChunkAt(chunks, k, ctx.message, ctx.n);
      ctx.Update(chunks[k]);
    }
    assert chunks[|chunks|..] == [] && ctx.message + [] == ctx.message;
  }

  /** Chunks below 2^29 octets are counted right, whatever the split. */
  lemma CountIsLength(chunks: seq<seq<Byte>>)
    requires forall i | 0 <= i < |chunks| :: |chunks[i]| < 0x2000_0000
    ensures CountAll(0, chunks) == 8 * |Flatten(chunks)| % TWO64
  {
    SmallChunksLoseNothing(chunks);
    CounterExact(chunks);
  }
}
