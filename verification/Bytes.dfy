/** Octets, big-endian fields and writes into byte strings. */
module Bytes {
  type Byte = x: int | 0 <= x < 256

  function Pair(high: Byte, low: Byte): (w: nat)
    ensures w <= 0xffff
  {
    (high as int) * 256 + low as int
  }

  function Word(p: seq<Byte>, at: nat): (w: nat)
    requires at + 2 <= |p|
    ensures w <= 0xffff
  {
    Pair(p[at], p[at + 1])
  }

  function FromWord(w: nat): (r: seq<Byte>)
    requires w <= 0xffff
    ensures |r| == 2 && Pair(r[0], r[1]) == w
  {
    [w / 256, w % 256]
  }

  function FromLong(w: nat): (r: seq<Byte>)
    requires w < 0x1_0000_0000
    ensures |r| == 4
  {
    FromWord(w / 0x1_0000) + FromWord(w % 0x1_0000)
  }

  function Long(p: seq<Byte>, at: nat): (w: nat)
    requires at + 4 <= |p|
    ensures w < 0x1_0000_0000
  {
    0x1_0000 * Word(p, at) + Word(p, at + 2)
  }

  function Zeros(n: nat): (r: seq<Byte>)
    ensures |r| == n && forall i | 0 <= i < n :: r[i] == 0
  {
    seq(n, _ => 0)
  }

  /** Overwrite part of a byte string. */
  function Put(p: seq<Byte>, at: nat, bytes: seq<Byte>): (r: seq<Byte>)
    requires at + |bytes| <= |p|
    ensures |r| == |p|
    ensures forall i | 0 <= i < |p| :: r[i] == if at <= i < at + |bytes| then bytes[i - at] else p[i]
  {
    p[..at] + bytes + p[at + |bytes|..]
  }

  lemma LongPut(p: seq<Byte>, at: nat, w: nat)
    requires at + 4 <= |p| && w < 0x1_0000_0000
    ensures Long(Put(p, at, FromLong(w)), at) == w
  {
    var b := FromLong(w);
    assert b[0] == FromWord(w / 0x1_0000)[0] && b[1] == FromWord(w / 0x1_0000)[1];
    assert b[2] == FromWord(w % 0x1_0000)[0] && b[3] == FromWord(w % 0x1_0000)[1];
  }

  /** `memcpy` of a value into a buffer. */
  method Copy(a: array<Byte>, at: nat, bytes: seq<Byte>)
    requires at + |bytes| <= a.Length
    modifies a
    ensures a[..] == Put(old(a[..]), at, bytes)
  {
    for k := 0 to |bytes|
      invariant forall i | 0 <= i < a.Length ::
                  a[i] == if at <= i < at + k then bytes[i - at] else old(a[i])
    {
      a[at + k] := bytes[k];
    }
  }
}
