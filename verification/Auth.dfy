/**
 Signing a packet when it is sent and checking it when it arrives. The hash
 functions are parameters; only the length of their results is used.
 */
module Auth {
  import opened Common
  import opened Bytes
  import Checksum
  import Serial

  const HEADER_LEN: nat := 20
  const TLV_AUTH: nat := 2
  const OPC_HELLO: int := 5
  const DIGEST_AT: nat := 44

  datatype Mode = NoAuth | Md5 | Sha256

  datatype Crypto = Crypto(md5: seq<Byte> -> seq<Byte>, hmac: (seq<Byte>, seq<Byte>) -> seq<Byte>)

  ghost predicate Sized(crypto: Crypto) {
    && (forall m :: |crypto.md5(m)| == 16)
    && (forall k, m :: |crypto.hmac(k, m)| == 32)
  }

  function TypeCode(mode: Mode): nat { match mode case NoAuth => 0 case Md5 => 2 case Sha256 => 3 }
  function TlvSize(mode: Mode): nat { match mode case NoAuth => 0 case Md5 => 40 case Sha256 => 56 }
  function DigestLen(mode: Mode): nat { match mode case NoAuth => 0 case Md5 => 16 case Sha256 => 32 }

  // ----- sequence numbers -----

  /** `eigrp_auth_sequence_newer` */
  predicate Newer(received: Serial.uint32, stored: Serial.uint32) {
    received != 0 && (stored == 0 || (received != stored && (received - stored) % Serial.MODULUS < Serial.HALF))
  }

  /** `eigrp_auth_sequence_next` */
  function Increment(counter: Serial.uint32): Serial.uint32 {
    if counter == Serial.MODULUS - 1 then 1 else counter + 1
  }

  /** The counter of an interface after `sent` signatures. */
  predicate Signatures(counter: Serial.uint32, sent: nat) {
    if sent == 0 then counter == 0 else counter == Serial.Wire(sent)
  }

  lemma IncrementCounts(counter: Serial.uint32, sent: nat)
    requires Signatures(counter, sent)
    ensures Signatures(Increment(counter), sent + 1)
    ensures Increment(counter) != 0
  {
    if sent > 0 {
      Serial.WireNext(sent);
    }
  }

  /** Each signature is newer than the one before, through wrap and skipped zero. */
  lemma NextIsNewer(counter: Serial.uint32)
    ensures Newer(Increment(counter), counter)
  {
  }

  /** A receiver that stored the signature of send `j` accepts send `k` exactly
      when `k` is later: lost packets do not matter and replays are refused, as
      long as the two are within the live span. */
  lemma NewerIsLater(j: nat, k: nat)
    requires j >= 1 && k >= 1 && -Serial.LIVE_SPAN < j - k < Serial.LIVE_SPAN
    ensures Newer(Serial.Wire(k), Serial.Wire(j)) <==> j < k
  {
    Serial.BeforeIsOrder(j, k);
  }

  /** Of two sequences that were used, at most one is newer, and exactly one unless
      they are equal or half the number space apart. */
  lemma NewerIsOneWay(a: Serial.uint32, b: Serial.uint32)
    requires a != 0 && b != 0
    ensures !(Newer(a, b) && Newer(b, a))
    ensures Newer(a, b) || Newer(b, a) <==> a != b && a - b != 0x8000_0000 && b - a != 0x8000_0000
  {}

  // ----- digests -----

  /** The octets of a packet that neither digest looks at: the checksum, and the
      digest itself. */
  predicate Blank(mode: Mode, i: nat) {
    2 <= i < 4 || 44 <= i < 44 + (if mode == Md5 then 16 else 32)
  }

  predicate IsBlank(mode: Mode, p: seq<Byte>) { forall i | 0 <= i < |p| && Blank(mode, i) :: p[i] == 0 }

  /** `m` is hashed for packet `q`: its first 44 octets, the key filled up with
      zeros to 16 octets, and all that follows the TLV unless it is a Hello. */
  predicate MdInput(m: seq<Byte>, q: seq<Byte>, key: seq<Byte>)
    requires |q| >= 60
  {
    var block := if |key| < 16 then 16 else |key|;
    && |m| == 44 + block + (if q[1] == 5 then 0 else |q| - 60)
    && (forall i | 0 <= i < 44 :: m[i] == if Blank(Md5, i) then 0 else q[i])
    && (forall i | 44 <= i < 44 + block :: m[i] == if i < 44 + |key| then key[i - 44] else 0)
    && (forall i | 44 + block <= i < |m| :: m[i] == q[16 + i - block])
  }

  /** `m` is packet `q` without checksum and digest; its HMAC key is a newline,
      the key and the sender's address in text. */
  predicate ShaInput(m: seq<Byte>, hmacKey: seq<Byte>, q: seq<Byte>, key: seq<Byte>, source: seq<Byte>) {
    && |m| == |q|
    && (forall i | 0 <= i < |q| :: m[i] == if Blank(Sha256, i) then 0 else q[i])
    && |hmacKey| == 1 + |key| + |source| && hmacKey[0] == 10
    && (forall i | 1 <= i <= |key| :: hmacKey[i] == key[i - 1])
    && (forall i | 1 + |key| <= i < |hmacKey| :: hmacKey[i] == source[i - 1 - |key|])
  }

  /** `eigrp_auth_md5_compute` and the HMAC input of `eigrp_make_sha256_digest`: the
      key and the text hashed of a packet whose digest and checksum are zero. */
  function Hashed(mode: Mode, p: seq<Byte>, key: seq<Byte>, source: seq<Byte>): (r: (seq<Byte>, seq<Byte>))
    requires |p| >= HEADER_LEN + TlvSize(mode) && mode != NoAuth
    ensures mode == Md5 && IsBlank(mode, p) ==> r.0 == [] && MdInput(r.1, p, key)
    ensures mode == Sha256 && IsBlank(mode, p) ==> ShaInput(r.1, r.0, p, key, source)
  {
    if mode == Md5 then
      ([], p[..DIGEST_AT] + key + Zeros(if |key| < 16 then 16 - |key| else 0)
           + (if p[1] == OPC_HELLO then [] else p[HEADER_LEN + TlvSize(Md5)..]))
    else ([10] + key + source, p)
  }

  function Digest(crypto: Crypto, mode: Mode, p: seq<Byte>, key: seq<Byte>, source: seq<Byte>): seq<Byte>
    requires |p| >= HEADER_LEN + TlvSize(mode)
  {
    if mode == NoAuth then []
    else
      var (hmacKey, m) := Hashed(mode, p, key, source);
      if mode == Md5 then crypto.md5(m) else crypto.hmac(hmacKey, m)
  }

  /** Packets that carry the authentication TLV where the sender expects it. */
  predicate Framed(mode: Mode, p: seq<Byte>)
    requires mode != NoAuth
  {
    && |p| >= HEADER_LEN + TlvSize(mode)
    && Word(p, 20) == TLV_AUTH
    && Word(p, 22) == TlvSize(mode)
    && Word(p, 24) == TypeCode(mode)
  }

  /** The template with sequence number and empty checksum and digest fields. */
  function Stamped(mode: Mode, p: seq<Byte>, sequence: Serial.uint32): (r: seq<Byte>)
    requires |p| >= HEADER_LEN + TlvSize(mode) && mode != NoAuth
    ensures |r| == |p|
  {
    Put(Put(Put(p, 32, FromLong(sequence)), 2, Zeros(2)), DIGEST_AT, Zeros(DigestLen(mode)))
  }

  function WithChecksum(p: seq<Byte>): (r: seq<Byte>)
    requires |p| >= HEADER_LEN
    ensures |r| == |p|
  {
    Put(p, 2, FromWord(Checksum.Of(p)))
  }

  function Signed(crypto: Crypto, mode: Mode, p: seq<Byte>, sequence: Serial.uint32, key: seq<Byte>, source: seq<Byte>)
    : (r: seq<Byte>)
    requires |p| >= HEADER_LEN + TlvSize(mode) && mode != NoAuth
    requires |Digest(crypto, mode, Stamped(mode, p, sequence), key, source)| == DigestLen(mode)
    ensures |r| == |p|
  {
    var t := Stamped(mode, p, sequence);
    WithChecksum(Put(t, DIGEST_AT, Digest(crypto, mode, t, key, source)))
  }

  /** The packet as the receiver hashes it: checksum and digest blanked. */
  function Blanked(mode: Mode, q: seq<Byte>): (r: seq<Byte>)
    requires |q| >= HEADER_LEN + TlvSize(mode) && mode != NoAuth
    ensures |r| == |q|
  {
    Put(Put(q, 2, Zeros(2)), DIGEST_AT, Zeros(DigestLen(mode)))
  }

  /** `eigrp_check_md5_digest`, `eigrp_check_sha256_digest` */
  predicate Checks(crypto: Crypto, mode: Mode, q: seq<Byte>, stored: Serial.uint32, key: seq<Byte>, source: seq<Byte>)
    requires mode != NoAuth
  {
    && Framed(mode, q)
    && Word(q, 26) == DigestLen(mode)
    && Newer(Long(q, 32), stored)
    && q[DIGEST_AT..DIGEST_AT + DigestLen(mode)] == Digest(crypto, mode, Blanked(mode, q), key, source)
  }

  /** Digest and checksum written into a blank packet are there, and blanking
      takes both out again. */
  lemma BlankedAgain(mode: Mode, t: seq<Byte>, digest: seq<Byte>, checksum: seq<Byte>)
    requires |t| >= HEADER_LEN + TlvSize(mode) && mode != NoAuth && t == Blanked(mode, t)
    requires |digest| == DigestLen(mode) && |checksum| == 2
    ensures var q := Put(Put(t, DIGEST_AT, digest), 2, checksum);
            Blanked(mode, q) == t && q[DIGEST_AT..DIGEST_AT + DigestLen(mode)] == digest
  {
    var q := Put(Put(t, DIGEST_AT, digest), 2, checksum);
    var b := Blanked(mode, q);
    assert forall i | 0 <= i < |t| :: b[i] == t[i];
    assert forall i | 0 <= i < |digest| :: q[DIGEST_AT + i] == digest[i];
  }

  lemma StampedIsBlank(mode: Mode, p: seq<Byte>, sequence: Serial.uint32)
    requires |p| >= HEADER_LEN + TlvSize(mode) && mode != NoAuth
    ensures Blanked(mode, Stamped(mode, p, sequence)) == Stamped(mode, p, sequence)
  {}

  lemma BlankedSigned(crypto: Crypto, mode: Mode, p: seq<Byte>, sequence: Serial.uint32, key: seq<Byte>, source: seq<Byte>)
    requires mode != NoAuth && Framed(mode, p) && Sized(crypto)
    ensures var t := Stamped(mode, p, sequence);
            |Digest(crypto, mode, t, key, source)| == DigestLen(mode)
    ensures var q := Signed(crypto, mode, p, sequence, key, source);
            && Blanked(mode, q) == Stamped(mode, p, sequence)
            && q[DIGEST_AT..DIGEST_AT + DigestLen(mode)]
                 == Digest(crypto, mode, Stamped(mode, p, sequence), key, source)
  {
    var t := Stamped(mode, p, sequence);
    var d := Digest(crypto, mode, t, key, source);
    StampedIsBlank(mode, p, sequence);
    BlankedAgain(mode, t, d, FromWord(Checksum.Of(Put(t, DIGEST_AT, d))));
  }

  lemma SequenceField(crypto: Crypto, mode: Mode, p: seq<Byte>, sequence: Serial.uint32, key: seq<Byte>, source: seq<Byte>)
    requires mode != NoAuth && Framed(mode, p)
    requires |Digest(crypto, mode, Stamped(mode, p, sequence), key, source)| == DigestLen(mode)
    ensures Long(Signed(crypto, mode, p, sequence, key, source), 32) == sequence
  {
    LongPut(p, 32, sequence);
    var q := Signed(crypto, mode, p, sequence, key, source);
    var r := Put(p, 32, FromLong(sequence));
    assert forall i | 32 <= i < 36 :: q[i] == r[i];
  }

  /** Finalize then verify: a signed packet sums to zero over its whole length,
      differs from its template only in checksum, sequence and digest, and
      passes the check of a receiver with the same key that sees the sender's
      address, exactly when the template's digest-length field is right and the
      sequence is newer than the stored one. */
  lemma FinalizeThenVerify(crypto: Crypto, mode: Mode, p: seq<Byte>, sequence: Serial.uint32,
                           key: seq<Byte>, source: seq<Byte>, stored: Serial.uint32)
    requires mode != NoAuth && Framed(mode, p) && Sized(crypto)
    ensures |Digest(crypto, mode, Stamped(mode, p, sequence), key, source)| == DigestLen(mode)
    ensures var q := Signed(crypto, mode, p, sequence, key, source);
            && Checksum.Of(q) == 0
            && (forall i | 0 <= i < |p| && q[i] != p[i] ::
                  2 <= i < 4 || 32 <= i < 36 || DIGEST_AT <= i < DIGEST_AT + DigestLen(mode))
            && (Checks(crypto, mode, q, stored, key, source) <==>
                Word(p, 26) == DigestLen(mode) && Newer(sequence, stored))
  {
    BlankedSigned(crypto, mode, p, sequence, key, source);
    SequenceField(crypto, mode, p, sequence, key, source);
    var t := Stamped(mode, p, sequence);
    var u := Put(t, DIGEST_AT, Digest(crypto, mode, t, key, source));
    Checksum.SealedSumsToZero(u, Checksum.Of(u));
  }

  // ----- what the digest covers -----

  /** The digest of a signed packet is the hash of the packet's own octets and the
      key, position by position. */
  lemma DigestCovers(crypto: Crypto, mode: Mode, p: seq<Byte>, sequence: Serial.uint32, key: seq<Byte>, source: seq<Byte>)
    returns (hmacKey: seq<Byte>, m: seq<Byte>)
    requires mode != NoAuth && Framed(mode, p) && Sized(crypto)
    ensures |Digest(crypto, mode, Stamped(mode, p, sequence), key, source)| == DigestLen(mode)
    ensures var q := Signed(crypto, mode, p, sequence, key, source);
            if mode == Md5 then q[44..60] == crypto.md5(m) && MdInput(m, q, key)
            else q[44..76] == crypto.hmac(hmacKey, m) && ShaInput(m, hmacKey, q, key, source)
  {
    var t := Stamped(mode, p, sequence);
    StampedIsBlank(mode, p, sequence);
    BlankedSigned(crypto, mode, p, sequence, key, source);
    var q := Signed(crypto, mode, p, sequence, key, source);
    hmacKey, m := Hashed(mode, t, key, source).0, Hashed(mode, t, key, source).1;
    InputOf(mode, q, t, key, source, hmacKey, m);
  }

  /** Blanking a packet does not change what is hashed. */
  lemma InputOf(mode: Mode, q: seq<Byte>, t: seq<Byte>, key: seq<Byte>, source: seq<Byte>,
                hmacKey: seq<Byte>, m: seq<Byte>)
    requires mode != NoAuth && |q| >= HEADER_LEN + TlvSize(mode) && t == Blanked(mode, q)
    ensures mode == Md5 && MdInput(m, t, key) ==> MdInput(m, q, key)
    ensures mode == Sha256 && ShaInput(m, hmacKey, t, key, source) ==> ShaInput(m, hmacKey, q, key, source)
  {
    assert forall i | 0 <= i < |q| && !Blank(mode, i) :: t[i] == q[i];
  }

  /** Nothing passes a receiver's check but a packet with the TLV of the mode at its
      place, right lengths and a sequence number that is not zero. */
  lemma PassingIsFramed(crypto: Crypto, mode: Mode, q: seq<Byte>, stored: Serial.uint32, key: seq<Byte>, source: seq<Byte>)
    requires mode != NoAuth && Checks(crypto, mode, q, stored, key, source)
    ensures |q| >= (if mode == Md5 then 60 else 76) && Word(q, 20) == 2 && Long(q, 32) != 0
    ensures mode == Md5 ==> Word(q, 22) == 40 && Word(q, 24) == 2 && Word(q, 26) == 16
    ensures mode == Sha256 ==> Word(q, 22) == 56 && Word(q, 24) == 3 && Word(q, 26) == 32
  {}

  /** A packet that carries the digest of another one passes a receiver's check. */
  ghost predicate Passes(crypto: Crypto, mode: Mode, p: seq<Byte>, key: seq<Byte>, source: seq<Byte>,
                         p': seq<Byte>, key': seq<Byte>, source': seq<Byte>, stored: Serial.uint32)
    requires mode != NoAuth && Framed(mode, p) && Framed(mode, p')
  {
    var digest := Digest(crypto, mode, Blanked(mode, p), key, source);
    |digest| == DigestLen(mode) && Checks(crypto, mode, Put(p', DIGEST_AT, digest), stored, key', source')
  }

  lemma PassesIs(crypto: Crypto, mode: Mode, p: seq<Byte>, key: seq<Byte>, source: seq<Byte>,
                 p': seq<Byte>, key': seq<Byte>, source': seq<Byte>, stored: Serial.uint32)
    requires mode != NoAuth && Framed(mode, p) && Framed(mode, p') && Sized(crypto)
    requires Word(p', 26) == DigestLen(mode) && Newer(Long(p', 32), stored)
    ensures Passes(crypto, mode, p, key, source, p', key', source', stored) <==>
            Digest(crypto, mode, Blanked(mode, p), key, source) == Digest(crypto, mode, Blanked(mode, p'), key', source')
  {
    var digest := Digest(crypto, mode, Blanked(mode, p), key, source);
    var q := Put(p', DIGEST_AT, digest);
    assert forall i | 20 <= i < 44 :: q[i] == p'[i];
    assert Blanked(mode, q) == Blanked(mode, p');
    assert q[DIGEST_AT..DIGEST_AT + DigestLen(mode)] == digest;
  }

  /** A hash that tells `m` under `k` from everything else. */
  function Telling(k: seq<Byte>, m: seq<Byte>): Crypto {
    Crypto(x => if x == m then Zeros(16) else [1] + Zeros(15),
           (l, x) => if l == k && x == m then Zeros(32) else [1] + Zeros(31))
  }

  lemma TellsApart(mode: Mode, h: (seq<Byte>, seq<Byte>), h': (seq<Byte>, seq<Byte>))
    requires h != h' && (mode == Md5 ==> h.0 == h'.0)
    ensures var c := Telling(h.0, h.1);
            Sized(c) && if mode == Md5 then c.md5(h.1) != c.md5(h'.1) else c.hmac(h.0, h.1) != c.hmac(h'.0, h'.1)
  {
    assert Zeros(16)[0] != ([1] + Zeros(15))[0] && Zeros(32)[0] != ([1] + Zeros(31))[0];
  }

  /** A digest moved to another packet, or checked under another key, is accepted
      whatever the hash exactly when the two are hashed alike. */
  lemma AcceptedByEveryHash(mode: Mode, p: seq<Byte>, key: seq<Byte>, source: seq<Byte>,
                            p': seq<Byte>, key': seq<Byte>, source': seq<Byte>, stored: Serial.uint32)
    requires mode != NoAuth && Framed(mode, p) && Framed(mode, p')
    requires Word(p', 26) == DigestLen(mode) && Newer(Long(p', 32), stored)
    ensures (forall crypto | Sized(crypto) :: Passes(crypto, mode, p, key, source, p', key', source', stored)) <==>
            Hashed(mode, Blanked(mode, p), key, source) == Hashed(mode, Blanked(mode, p'), key', source')
  {
    var h, h' := Hashed(mode, Blanked(mode, p), key, source), Hashed(mode, Blanked(mode, p'), key', source');
    if h == h' {
      forall crypto | Sized(crypto) ensures Passes(crypto, mode, p, key, source, p', key', source', stored) {
        PassesIs(crypto, mode, p, key, source, p', key', source', stored);
      }
    } else {
      var crypto := Telling(h.0, h.1);
      TellsApart(mode, h, h');
      PassesIs(crypto, mode, p, key, source, p', key', source', stored);
    }
  }

  /** Octets that a digest protects: all but checksum and digest -- but of a Hello
      under MD5 nothing beyond its authentication TLV. */
  predicate Protected(mode: Mode, p: seq<Byte>, i: nat)
    requires |p| >= 2
  {
    !Blank(mode, i) && (mode == Md5 && p[1] == 5 ==> i < 60)
  }

  /** Under the same key, an altered packet of the same length passes whatever the
      hash exactly when no protected octet was altered. */
  lemma AlteredPassesExactly(mode: Mode, p: seq<Byte>, p': seq<Byte>, key: seq<Byte>, source: seq<Byte>,
                             stored: Serial.uint32)
    requires mode != NoAuth && Framed(mode, p) && Framed(mode, p') && |p| == |p'|
    requires Word(p', 26) == DigestLen(mode) && Newer(Long(p', 32), stored)
    ensures (forall crypto | Sized(crypto) :: Passes(crypto, mode, p, key, source, p', key, source, stored)) <==>
            forall i | 0 <= i < |p| && Protected(mode, p, i) :: p'[i] == p[i]
  {
    AcceptedByEveryHash(mode, p, key, source, p', key, source, stored);
    HashedAlike(mode, Blanked(mode, p), Blanked(mode, p'), key, source);
    var t, t' := Blanked(mode, p), Blanked(mode, p');
    assert forall i | 0 <= i < |p| :: t[i] == if Blank(mode, i) then 0 else p[i];
    assert forall i | 0 <= i < |p| :: t'[i] == if Blank(mode, i) then 0 else p'[i];
  }

  lemma HashedAlike(mode: Mode, t: seq<Byte>, t': seq<Byte>, key: seq<Byte>, source: seq<Byte>)
    requires mode != NoAuth && |t| == |t'| >= HEADER_LEN + TlvSize(mode)
    requires IsBlank(mode, t) && IsBlank(mode, t')
    ensures Hashed(mode, t, key, source) == Hashed(mode, t', key, source) <==>
            forall i | 0 <= i < |t| && Protected(mode, t, i) :: t'[i] == t[i]
  {
    var h, h' := Hashed(mode, t, key, source), Hashed(mode, t', key, source);
    if mode == Md5 {
      if h.1 == h'.1 {
        SameText(t, t', key, h.1);
      } else if forall i | 0 <= i < |t| && Protected(mode, t, i) :: t'[i] == t[i] {
        TextOfSame(t, t', key, h.1, h'.1);
      }
    } else {
      assert h.1 == t && h'.1 == t';
      if forall i | 0 <= i < |t| && Protected(mode, t, i) :: t'[i] == t[i] {
        assert t == t';
      }
    }
  }

  lemma SameText(t: seq<Byte>, t': seq<Byte>, key: seq<Byte>, m: seq<Byte>)
    requires |t| == |t'| >= 60 && MdInput(m, t, key) && MdInput(m, t', key)
    ensures forall i | 0 <= i < |t| && Protected(Md5, t, i) :: t'[i] == t[i]
  {
    assert m[1] == t[1] && m[1] == t'[1];
    var block := if |key| < 16 then 16 else |key|;
    forall i | 0 <= i < |t| && Protected(Md5, t, i) ensures t'[i] == t[i] {
      if i < 44 {
        assert m[i] == t[i];
      } else {
        assert m[i - 16 + block] == t[i];
      }
    }
  }

  lemma TextOfSame(t: seq<Byte>, t': seq<Byte>, key: seq<Byte>, m: seq<Byte>, m': seq<Byte>)
    requires |t| == |t'| >= 60 && MdInput(m, t, key) && MdInput(m', t', key)
    requires forall i | 0 <= i < |t| && Protected(Md5, t, i) :: t'[i] == t[i]
    ensures m == m'
  {
    assert t[1] == t'[1];
    assert forall i | 0 <= i < |m| :: m[i] == m'[i];
  }

  /** Keys are C strings. */
  predicate KeyText(key: seq<Byte>) { forall i | 0 <= i < |key| :: key[i] != 0 }

  /** The same packet passes under another MD5 key whatever the hash only if the
      keys are the same text, although short keys are filled up with zeros; under
      SHA-256 only key and address together count. */
  lemma OtherKeyPassesExactly(mode: Mode, p: seq<Byte>, key: seq<Byte>, source: seq<Byte>,
                              key': seq<Byte>, source': seq<Byte>, stored: Serial.uint32)
    requires mode != NoAuth && Framed(mode, p) && KeyText(key) && KeyText(key')
    requires Word(p, 26) == DigestLen(mode) && Newer(Long(p, 32), stored)
    ensures (forall crypto | Sized(crypto) :: Passes(crypto, mode, p, key, source, p, key', source', stored)) <==>
            if mode == Md5 then key == key' else key + source == key' + source'
  {
    AcceptedByEveryHash(mode, p, key, source, p, key', source', stored);
    if mode == Md5 {
      TextsAlike(Blanked(mode, p), key, source, key', source');
    } else {
      HmacKeysAlike(key, source, key', source');
    }
  }

  lemma TextsAlike(t: seq<Byte>, key: seq<Byte>, source: seq<Byte>, key': seq<Byte>, source': seq<Byte>)
    requires |t| >= 60 && IsBlank(Md5, t) && KeyText(key) && KeyText(key')
    ensures Hashed(Md5, t, key, source) == Hashed(Md5, t, key', source') <==> key == key'
  {
    if Hashed(Md5, t, key, source) == Hashed(Md5, t, key', source') {
      KeysAlike(t, key, key', Hashed(Md5, t, key, source).1);
    }
  }

  lemma HmacKeysAlike(key: seq<Byte>, source: seq<Byte>, key': seq<Byte>, source': seq<Byte>)
    ensures [10] + key + source == [10] + key' + source' <==> key + source == key' + source'
  {
    assert ([10] + key + source)[1..] == key + source && ([10] + key' + source')[1..] == key' + source';
    assert [10] + key + source == [10] + (key + source) && [10] + key' + source' == [10] + (key' + source');
  }

  lemma KeysAlike(t: seq<Byte>, key: seq<Byte>, key': seq<Byte>, m: seq<Byte>)
    requires |t| >= 60 && KeyText(key) && KeyText(key') && MdInput(m, t, key) && MdInput(m, t, key')
    ensures key == key'
  {
    NoShorterKey(t, key, key', m);
    NoShorterKey(t, key', key, m);
    assert forall i | 0 <= i < |key| :: m[44 + i] == key[i] && m[44 + i] == key'[i];
  }

  lemma NoShorterKey(t: seq<Byte>, key: seq<Byte>, key': seq<Byte>, m: seq<Byte>)
    requires |t| >= 60 && KeyText(key') && MdInput(m, t, key) && MdInput(m, t, key')
    ensures |key| >= |key'|
  {
    assert |key| < 16 ==> m[44 + |key|] == 0;
  }

  // ----- the packets that are built -----

  /** `eigrp_auth_tlv_md5_encode`, `eigrp_auth_tlv_sha256_encode`: type, length,
      authentication type, digest length and key identifier, then the sequence
      number, the padding and the digest as zeros. */
  function AuthTlv(mode: Mode, keyId: nat): (r: seq<Byte>)
    requires mode != NoAuth && keyId < 0x1_0000_0000
    ensures |r| == TlvSize(mode)
    ensures Word(r, 0) == TLV_AUTH && Word(r, 2) == TlvSize(mode)
    ensures Word(r, 4) == TypeCode(mode) && Word(r, 6) == DigestLen(mode)
    ensures Long(r, 8) == (if mode == Sha256 then 0 else keyId) && forall i | 12 <= i < |r| :: r[i] == 0
  {
    var kind, length := FromWord(TLV_AUTH), FromWord(TlvSize(mode));
    var code, digest := FromWord(TypeCode(mode)), FromWord(DigestLen(mode));
    kind + length + code + digest + FromLong(if mode == Sha256 then 0 else keyId) + Zeros(4 + 8 + DigestLen(mode))
  }

  /** Header, authentication TLV, and whatever the packet carries. */
  function Template(mode: Mode, header: seq<Byte>, keyId: nat, rest: seq<Byte>): seq<Byte>
    requires mode != NoAuth && keyId < 0x1_0000_0000 && |header| == HEADER_LEN
  {
    header + AuthTlv(mode, keyId) + rest
  }

  lemma TemplateIsFramed(mode: Mode, header: seq<Byte>, keyId: nat, rest: seq<Byte>)
    requires mode != NoAuth && keyId < 0x1_0000_0000 && |header| == HEADER_LEN
    ensures Framed(mode, Template(mode, header, keyId, rest))
    ensures Word(Template(mode, header, keyId, rest), 26) == DigestLen(mode)
  {
    var t, p := AuthTlv(mode, keyId), Template(mode, header, keyId, rest);
    assert forall i | 0 <= i < 8 :: p[HEADER_LEN + i] == t[i];
  }

  /** Every packet that is built with an authentication TLV and finalized sums to
      zero and verifies at a receiver with the same key exactly when its sequence
      is newer than the stored one. */
  lemma BuiltThenVerifies(crypto: Crypto, mode: Mode, header: seq<Byte>, keyId: nat, rest: seq<Byte>,
                          sequence: Serial.uint32, key: seq<Byte>, source: seq<Byte>, stored: Serial.uint32)
    requires mode != NoAuth && keyId < 0x1_0000_0000 && |header| == HEADER_LEN && Sized(crypto)
    ensures var p := Template(mode, header, keyId, rest);
            |Digest(crypto, mode, Stamped(mode, p, sequence), key, source)| == DigestLen(mode)
    ensures var p := Template(mode, header, keyId, rest);
            var q := Signed(crypto, mode, p, sequence, key, source);
            && Checksum.Of(q) == 0
            && (Checks(crypto, mode, q, stored, key, source) <==> Newer(sequence, stored))
  {
    TemplateIsFramed(mode, header, keyId, rest);
    FinalizeThenVerify(crypto, mode, Template(mode, header, keyId, rest), sequence, key, source, stored);
  }

  /** Without authentication only the checksum is set. */
  lemma UnsignedSumsToZero(p: seq<Byte>)
    requires |p| >= HEADER_LEN
    ensures Checksum.Of(WithChecksum(Put(p, 2, Zeros(2)))) == 0
  {
    var z := Put(p, 2, Zeros(2));
    Checksum.SealedSumsToZero(z, Checksum.Of(z));
  }

  /** The authentication fields of `eigrp_intf_t`. */
  class Interface {
    var mode: Mode
    var counter: Serial.uint32
    ghost var sent: nat

    ghost predicate Valid()
      reads this
    {
      Signatures(counter, sent)
    }

    method SequenceNext() returns (sequence: Serial.uint32)
      requires Valid()
      modifies this`counter, this`sent
      ensures Valid() && sent == old(sent) + 1
      ensures sequence == counter == Increment(old(counter)) == Serial.Wire(sent)
      ensures Newer(sequence, old(counter))
    {
      IncrementCounts(counter, sent);
      NextIsNewer(counter);
      counter := (counter + 1) % Serial.MODULUS;
      if counter == 0 {
        counter := counter + 1;
      }
      sent := sent + 1;
      sequence := counter;
    }

    /** `eigrp_auth_transmit_finalize`: the key and the source text are found or
        not; the packet fills the stream. */
    method TransmitFinalize(a: array<Byte>, crypto: Crypto, key: Option<seq<Byte>>, source: Option<seq<Byte>>)
      returns (ok: bool)
      requires Valid() && Sized(crypto) && a.Length <= 0xffff
      modifies a, this`counter, this`sent
      ensures Valid()
      ensures ok <==> if mode == NoAuth then a.Length >= HEADER_LEN
                      else Framed(mode, old(a[..])) && key.Some? && (mode == Sha256 ==> source.Some?)
      ensures ok && mode == NoAuth ==>
                a[..] == WithChecksum(Put(old(a[..]), 2, Zeros(2))) && sent == old(sent)
      ensures ok && mode != NoAuth ==>
                && sent == old(sent) + 1
                && |Digest(crypto, mode, Stamped(mode, old(a[..]), Serial.Wire(sent)), key.value,
                           if mode == Sha256 then source.value else [])| == DigestLen(mode)
                && a[..] == Signed(crypto, mode, old(a[..]), Serial.Wire(sent), key.value,
                                   if mode == Sha256 then source.value else [])
      ensures sent != old(sent) ==> Newer(counter, old(counter))
    {
      if a.Length < HEADER_LEN {
        return false;
      }
      if mode == NoAuth {
        Copy(a, 2, Zeros(2));
        var sum := Checksum.Compute(a, a.Length);
        assert a[..a.Length] == a[..];
        Copy(a, 2, FromWord(sum));
        return true;
      }
      if a.Length < HEADER_LEN + TlvSize(mode) || key.None? {
        return false;
      }
      ok := FrameOk(a, mode);
      if !ok {
        return false;
      }
      var sequence := SequenceNext();
      Stamp(a, mode, sequence);
      if mode == Sha256 && source.None? {
        return false;
      }
      Sign(a, mode, crypto, key.value, if mode == Sha256 then source.value else []);
      return true;
    }
  }

  method FrameOk(a: array<Byte>, mode: Mode) returns (ok: bool)
    requires a.Length >= HEADER_LEN + TlvSize(mode) && mode != NoAuth
    ensures ok <==> Framed(mode, a[..])
  {
    var p := a[..];
    ok := Word(p, 20) == TLV_AUTH && Word(p, 22) == TlvSize(mode) && Word(p, 24) == TypeCode(mode);
  }

  method Stamp(a: array<Byte>, mode: Mode, sequence: Serial.uint32)
    requires a.Length >= HEADER_LEN + TlvSize(mode) && mode != NoAuth
    modifies a
    ensures a[..] == Stamped(mode, old(a[..]), sequence)
  {
    Copy(a, 32, FromLong(sequence));
    Copy(a, 2, Zeros(2));
    Copy(a, DIGEST_AT, Zeros(DigestLen(mode)));
  }

  method Sign(a: array<Byte>, mode: Mode, crypto: Crypto, key: seq<Byte>, source: seq<Byte>)
    requires HEADER_LEN + TlvSize(mode) <= a.Length <= 0xffff && mode != NoAuth && Sized(crypto)
    modifies a
    ensures |Digest(crypto, mode, old(a[..]), key, source)| == DigestLen(mode)
    ensures a[..] == WithChecksum(Put(old(a[..]), DIGEST_AT, Digest(crypto, mode, old(a[..]), key, source)))
  {
    var digest := Digest(crypto, mode, a[..], key, source);
    Copy(a, DIGEST_AT, digest);
    var sum := Checksum.Compute(a, a.Length);
    assert a[..a.Length] == a[..];
    Copy(a, 2, FromWord(sum));
  }

  /** The digest of the packet with checksum and digest blanked; both are put back. */
  method BlankedDigest(a: array<Byte>, mode: Mode, crypto: Crypto, key: seq<Byte>, source: seq<Byte>)
    returns (digest: seq<Byte>)
    requires a.Length >= HEADER_LEN + TlvSize(mode) && mode != NoAuth
    modifies a
    ensures a[..] == old(a[..])
    ensures digest == Digest(crypto, mode, Blanked(mode, a[..]), key, source)
  {
    var p := a[..];
    var checksum, original := p[2..4], p[DIGEST_AT..DIGEST_AT + DigestLen(mode)];
    Copy(a, 2, Zeros(2));
    Copy(a, DIGEST_AT, Zeros(DigestLen(mode)));
    digest := Digest(crypto, mode, a[..], key, source);
    Copy(a, DIGEST_AT, original);
    Copy(a, 2, checksum);
    assert a[..] == p;
  }

  /** The receiver's record of a neighbor. */
  class Receiver {
    var stored: Serial.uint32

    method CheckDigest(a: array<Byte>, mode: Mode, crypto: Crypto, key: Option<seq<Byte>>, source: Option<seq<Byte>>)
      returns (ok: bool)
      requires mode != NoAuth
      modifies this, a
      ensures a[..] == old(a[..])
      ensures ok <==> key.Some? && (mode == Sha256 ==> source.Some?)
                      && Checks(crypto, mode, a[..], old(stored), key.value,
                                if mode == Sha256 then source.value else [])
      ensures stored == if ok then Long(a[..], 32) else old(stored)
    {
      if a.Length < HEADER_LEN + TlvSize(mode) {
        return false;
      }
      ok := FrameOk(a, mode);
      var p := a[..];
      if !ok || Word(p, 26) != DigestLen(mode) || !Newer(Long(p, 32), stored) {
        return false;
      }
      if key.None? || (mode == Sha256 && source.None?) {
        return false;
      }
      var digest := BlankedDigest(a, mode, crypto, key.value, if mode == Sha256 then source.value else []);
      ok := p[DIGEST_AT..DIGEST_AT + DigestLen(mode)] == digest;
      if ok {
        stored := Long(p, 32);
      }
    }
  }
}
