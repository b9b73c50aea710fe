/**
 Hellos: the TLV encoders, the validator, the receive walk and the agreement of
 sender and receiver about conditional receive.
 */
module Hello {
  import opened Common
  import opened Bytes

  const HEADER_LEN: nat := 20
  const TLV_HDR: nat := 4
  const PARAMETER: nat := 1
  const AUTH: nat := 2
  const SEQUENCE: nat := 3
  const SW_VERSION: nat := 4
  const NEXT_MCAST: nat := 5
  const PEER_TERMINATION: nat := 7

  datatype Tlv = Tlv(kind: nat, value: seq<Byte>)

  predicate Encodable(t: Tlv) { t.kind <= 0xffff && TLV_HDR + |t.value| <= 0xffff }

  function TlvBytes(t: Tlv): (r: seq<Byte>)
    requires Encodable(t)
    ensures |r| == TLV_HDR + |t.value|
  {
    FromWord(t.kind) + FromWord(TLV_HDR + |t.value|) + t.value
  }

  function Payload(ts: seq<Tlv>): seq<Byte>
    requires forall i | 0 <= i < |ts| :: Encodable(ts[i])
  {
    if ts == [] then [] else TlvBytes(ts[0]) + Payload(ts[1..])
  }

  /** The TLVs between the boundaries a walk visits; None for bad framing. */
  function Parse(p: seq<Byte>): Option<seq<Tlv>>
    decreases |p|
  {
    if |p| == 0 then Some([])
    else if |p| < TLV_HDR then None
    else
      var length := Word(p, 2);
      if length < TLV_HDR || length > |p| then None
      else
        var rest := Parse(p[length..]);
        if rest.None? then None
        else Some([Tlv(Word(p, 0), p[TLV_HDR..length])] + rest.value)
  }

  lemma HeaderOf(t: Tlv, rest: seq<Byte>)
    requires Encodable(t)
    ensures var p := TlvBytes(t) + rest;
            && Word(p, 0) == t.kind && Word(p, 2) == TLV_HDR + |t.value|
            && p[TLV_HDR..TLV_HDR + |t.value|] == t.value
            && p[TLV_HDR + |t.value|..] == rest
  {
    var p := TlvBytes(t) + rest;
    assert p[0] == FromWord(t.kind)[0] && p[1] == FromWord(t.kind)[1];
    assert p[2] == FromWord(TLV_HDR + |t.value|)[0] && p[3] == FromWord(TLV_HDR + |t.value|)[1];
  }

  lemma ParseCons(t: Tlv, rest: seq<Byte>)
    requires Encodable(t) && Parse(rest).Some?
    ensures Parse(TlvBytes(t) + rest) == Some([t] + Parse(rest).value)
  {
    HeaderOf(t, rest);
  }

  /** A walk over encoded TLVs visits exactly their boundaries. */
  lemma {:induction false} ParsePayload(ts: seq<Tlv>)
    requires forall i | 0 <= i < |ts| :: Encodable(ts[i])
    ensures Parse(Payload(ts)) == Some(ts)
    decreases |ts|
  {
    if ts != [] {
      ParsePayload(ts[1..]);
      ParseCons(ts[0], Payload(ts[1..]));
      assert [ts[0]] + ts[1..] == ts;
    }
  }

  // ----- validation -----

  /** A list of addresses, each preceded by its length. */
  predicate AddressList(v: seq<Byte>, size: nat)
    decreases |v|
  {
    v == [] || (v[0] as int == size && 1 + size <= |v| && AddressList(v[1 + size..], size))
  }

  predicate TlvOk(t: Tlv, size: nat) {
    if t.kind == PARAMETER then |t.value| >= 8 && Word(t.value, 6) != 0
    else if t.kind == SW_VERSION then |t.value| >= 4
    else if t.kind == NEXT_MCAST then |t.value| == 4
    else if t.kind == SEQUENCE then AddressList(t.value, size)
    else if t.kind == PEER_TERMINATION then AddressList(t.value, size) && |t.value| >= 1 + size
    else true
  }

  /** What the validator asks of each type: a Parameter with a hold time, a version
      of four octets, a sequence number of exactly four, a list of addresses, and
      for a peer termination a list that is not empty. Other types pass. */
  lemma TlvOkIs(t: Tlv, size: nat)
    ensures t.kind == 1 ==> (TlvOk(t, size) <==> |t.value| >= 8 && (t.value[6] != 0 || t.value[7] != 0))
    ensures t.kind == 3 ==> (TlvOk(t, size) <==> AddressList(t.value, size))
    ensures t.kind == 4 ==> (TlvOk(t, size) <==> |t.value| >= 4)
    ensures t.kind == 5 ==> (TlvOk(t, size) <==> |t.value| == 4)
    ensures t.kind == 7 ==> (TlvOk(t, size) <==> AddressList(t.value, size) && t.value != [])
    ensures t.kind !in {1, 3, 4, 5, 7} ==> TlvOk(t, size)
  {}

  predicate AllOk(ts: seq<Tlv>, size: nat) {
    forall i | 0 <= i < |ts| :: TlvOk(ts[i], size)
  }

  predicate HasParameter(ts: seq<Tlv>) {
    exists i :: 0 <= i < |ts| && ts[i].kind == PARAMETER
  }

  /** What `eigrp_hello_tlvs_validate` accepts. */
  predicate Validates(p: seq<Byte>, size: nat) {
    var ts := Parse(p);
    ts.Some? && AllOk(ts.value, size) && HasParameter(ts.value)
  }

  /** The loop over the entries of an address list; `at` starts at the value. */
  method AddressesOk(p: seq<Byte>, start: nat, length: nat, size: nat) returns (ok: bool)
    requires start <= length <= |p|
    ensures ok <==> AddressList(p[start..length], size)
  {
    var at := start;
    while at < length
      invariant start <= at <= length
      invariant AddressList(p[start..length], size) <==> AddressList(p[at..length], size)
    {
      var encoded := p[at] as int;
      if encoded != size || at + 1 + encoded > length {
        return false;
      }
      assert p[at..length][1 + size..] == p[at + 1 + size..length];
      at := at + 1 + encoded;
    }
    return true;
  }

  method CheckTlv(p: seq<Byte>, size: nat) returns (ok: bool)
    requires |p| >= TLV_HDR && TLV_HDR <= Word(p, 2) <= |p|
    ensures ok <==> TlvOk(Tlv(Word(p, 0), p[TLV_HDR..Word(p, 2)]), size)
  {
    var kind, length := Word(p, 0), Word(p, 2);
    ghost var value := p[TLV_HDR..length];
    ok := true;
    if kind == PARAMETER {
      if length < 12 {
        return false;
      }
      assert Word(value, 6) == Word(p, 10);
      return Word(p, 10) != 0;
    } else if kind == SW_VERSION {
      return length >= 8;
    } else if kind == NEXT_MCAST {
      return length == 8;
    } else if kind == SEQUENCE || kind == PEER_TERMINATION {
      ok := AddressesOk(p, TLV_HDR, length, size);
      if ok && kind == PEER_TERMINATION && length < TLV_HDR + 1 + size {
        return false;
      }
    }
  }

  /** `eigrp_hello_tlvs_validate` */
  method TlvsValidate(p: seq<Byte>, size: nat) returns (ok: bool)
    ensures ok <==> Validates(p, size)
  {
    var seen := false;
    var cursor := p;
    ghost var front: seq<Tlv> := [];
    assert Parse(p).Some? ==> [] + Parse(p).value == Parse(p).value;
    while |cursor| > 0
      invariant AllOk(front, size) && (seen <==> HasParameter(front))
      invariant Parse(p) == (if Parse(cursor).Some? then Some(front + Parse(cursor).value) else None)
      decreases |cursor|
    {
      if |cursor| < TLV_HDR {
        return false;
      }
      var kind, length := Word(cursor, 0), Word(cursor, 2);
      if length < TLV_HDR || length > |cursor| {
        return false;
      }
      var good := CheckTlv(cursor, size);
      ghost var t := Tlv(kind, cursor[TLV_HDR..length]);
      if !good {
        assert Parse(p).Some? ==> Parse(p).value[|front|] == t;
        return false;
      }
      ParameterIn(front, t);
      ParseMoves(front, t, cursor, length);
      seen := seen || kind == PARAMETER;
      front := front + [t];
      cursor := cursor[length..];
    }
    assert front + [] == front;
    return seen;
  }

  lemma ParseMoves(front: seq<Tlv>, t: Tlv, cursor: seq<Byte>, length: nat)
    requires |cursor| >= TLV_HDR && length == Word(cursor, 2) && TLV_HDR <= length <= |cursor|
    requires t == Tlv(Word(cursor, 0), cursor[TLV_HDR..length])
    ensures Parse(cursor[length..]).Some? <==> Parse(cursor).Some?
    ensures Parse(cursor).Some? ==>
              front + Parse(cursor).value == front + [t] + Parse(cursor[length..]).value
  {
  }

  lemma ParameterIn(front: seq<Tlv>, t: Tlv)
    ensures HasParameter(front + [t]) <==> HasParameter(front) || t.kind == PARAMETER
  {
    assert (front + [t])[|front|] == t;
    if HasParameter(front) {
      var i :| 0 <= i < |front| && front[i].kind == PARAMETER;
      assert (front + [t])[i].kind == PARAMETER;
    }
  }

  // ----- the sender -----

  /** A peer of the interface: is it in the multicast's epoch and UP, and does
      it still have an earlier reliable packet queued? */
  datatype Peer = Peer(address: seq<Byte>, eligible: bool, busy: bool)

  /** `counted` is the size of the authentication TLV that the configured mode
      calls for when a password or key chain is given, 0 otherwise; `auth` is the
      value of the TLV when a key is found as well. */
  datatype Config = Config(k: seq<Byte>, hold: nat, version: seq<Byte>, counted: nat, auth: Option<seq<Byte>>, size: nat)

  predicate ConfigOk(c: Config) {
    && |c.k| == 6 && c.hold <= 0xffff && |c.version| == 4
    && (c.size == 4 || c.size == 16)
    && (c.counted == 0 || c.counted == 40 || c.counted == 56)
    && (c.auth.Some? ==> c.counted == TLV_HDR + |c.auth.value|)
  }

  predicate PeersOk(peers: seq<Peer>, size: nat) {
    forall i | 0 <= i < |peers| :: |peers[i].address| == size
  }

  /** The peers that must not receive the multicast. */
  function Listed(peers: seq<Peer>): seq<seq<Byte>> {
    if peers == [] then []
    else (if peers[0].eligible && peers[0].busy then [peers[0].address] else []) + Listed(peers[1..])
  }

  lemma {:induction false} ListedIs(peers: seq<Peer>, a: seq<Byte>)
    ensures a in Listed(peers) <==>
            exists i :: 0 <= i < |peers| && peers[i].address == a && peers[i].eligible && peers[i].busy
    decreases |peers|
  {
    if peers != [] {
      ListedIs(peers[1..], a);
      if exists i :: 0 <= i < |peers| && peers[i].address == a && peers[i].eligible && peers[i].busy {
        var i :| 0 <= i < |peers| && peers[i].address == a && peers[i].eligible && peers[i].busy;
        assert i > 0 ==> peers[1..][i - 1] == peers[i];
      }
    }
  }

  function ListBytes(addresses: seq<seq<Byte>>, size: Byte): seq<Byte> {
    if addresses == [] then [] else [size] + addresses[0] + ListBytes(addresses[1..], size)
  }

  lemma OneMore(x: nat, n: nat)
    ensures x * (n + 1) == x * n + x
  {
  }

  lemma {:induction false} ListLength(peers: seq<Peer>, size: Byte)
    requires PeersOk(peers, size)
    ensures |ListBytes(Listed(peers), size)| == (1 + size) * |Listed(peers)|
    ensures forall i | 0 <= i < |Listed(peers)| :: |Listed(peers)[i]| == size
    decreases |peers|
  {
    if peers != [] {
      ListLength(peers[1..], size);
      if peers[0].eligible && peers[0].busy {
        assert Listed(peers)[0] == peers[0].address && Listed(peers)[1..] == Listed(peers[1..]);
        OneMore(1 + size, |Listed(peers[1..])|);
      } else {
        assert Listed(peers) == Listed(peers[1..]);
      }
    }
  }

  function Parameter(c: Config): Tlv
    requires c.hold <= 0xffff
  {
    Tlv(PARAMETER, c.k + FromWord(c.hold))
  }

  function AuthPart(c: Config): seq<Tlv> {
    if c.auth.Some? then [Tlv(AUTH, c.auth.value)] else []
  }

  function SequencePart(c: Config, peers: seq<Peer>): seq<Tlv>
    requires ConfigOk(c)
  {
    if Listed(peers) == [] then [] else [Tlv(SEQUENCE, ListBytes(Listed(peers), c.size))]
  }

  /** `eigrp_hello_encode` with a SEQUENCE: no SEQUENCE TLV without a busy peer. */
  function HelloTlvs(c: Config, peers: seq<Peer>, sequence: nat): seq<Tlv>
    requires ConfigOk(c) && sequence < 0x1_0000_0000
  {
    AuthPart(c) + [Parameter(c), Tlv(SW_VERSION, c.version)] + SequencePart(c, peers)
    + [Tlv(NEXT_MCAST, FromLong(sequence))]
  }

  /** The length that `eigrp_hello_sequence_fits` compares with the limit. */
  function Predicted(c: Config, peers: seq<Peer>): nat
    requires ConfigOk(c)
  {
    HEADER_LEN + 12 + 8 + TLV_HDR + 8 + c.counted
    + (1 + c.size) * |Listed(peers)|
  }

  /** `eigrp_packet_payload_limit`, `eigrp_hello_sequence_fits` */
  function PayloadLimit(mtu: nat): nat { if mtu <= 20 then 0 else mtu - 20 }

  /** The Hello fits exactly when with a 20-octet network header it is no longer
      than the interface takes. */
  lemma FitsIs(c: Config, peers: seq<Peer>, mtu: nat)
    requires ConfigOk(c)
    ensures Predicted(c, peers) <= PayloadLimit(mtu) <==> 20 + Predicted(c, peers) <= mtu
  {}

  method SequenceFits(c: Config, peers: seq<Peer>, mtu: nat) returns (fits: bool)
    requires ConfigOk(c)
    ensures fits <==> Predicted(c, peers) <= PayloadLimit(mtu)
  {
    var length := HEADER_LEN + 12 + 8 + TLV_HDR + 8;
    length := length + c.counted;
    ghost var start := length;
    for i := 0 to |peers|
      invariant length + (1 + c.size) * |Listed(peers[i..])| == start + (1 + c.size) * |Listed(peers)|
    {
      assert peers[i..][0] == peers[i] && peers[i..][1..] == peers[i + 1..];
      if peers[i].eligible && peers[i].busy {
        length := length + (c.size + 1);
      }
    }
    fits := length <= PayloadLimit(mtu);
  }

  lemma Associate(x: seq<Byte>, y: seq<Byte>, z: seq<Byte>)
    ensures x + y + z == x + (y + z)
  {
  }

  lemma {:induction false} PayloadConcat(a: seq<Tlv>, b: seq<Tlv>)
    requires forall i | 0 <= i < |a| :: Encodable(a[i])
    requires forall i | 0 <= i < |b| :: Encodable(b[i])
    ensures Payload(a + b) == Payload(a) + Payload(b)
    decreases |a|
  {
    if a == [] {
      assert a + b == b;
    } else {
      assert (a + b)[0] == a[0] && (a + b)[1..] == a[1..] + b;
      PayloadConcat(a[1..], b);
      Associate(TlvBytes(a[0]), Payload(a[1..]), Payload(b));
    }
  }

  /** The Hello can be framed when its SEQUENCE TLV fits its 16-bit length. */
  predicate Framable(c: Config, peers: seq<Peer>)
    requires ConfigOk(c)
  {
    TLV_HDR + (1 + c.size) * |Listed(peers)| <= 0xffff
  }

  /** What fits the payload of an interface can be framed. */
  lemma FittingIsFramable(c: Config, peers: seq<Peer>, mtu: nat)
    requires ConfigOk(c) && mtu <= 0xffff && Predicted(c, peers) <= PayloadLimit(mtu)
    ensures Framable(c, peers)
  {
  }

  lemma HelloEncodable(c: Config, peers: seq<Peer>, sequence: nat)
    requires ConfigOk(c) && PeersOk(peers, c.size) && sequence < 0x1_0000_0000 && Framable(c, peers)
    ensures forall t | t in HelloTlvs(c, peers, sequence) :: Encodable(t)
  {
    ListLength(peers, c.size);
  }

  lemma PayloadOne(t: Tlv)
    requires Encodable(t)
    ensures Payload([t]) == TlvBytes(t)
  {
    assert [t][1..] == [];
  }

  /** The Hello is never longer than predicted, and exactly as long when it lists
      a busy peer and the key that the prediction counts on is found. */
  lemma LengthAsPredicted(c: Config, peers: seq<Peer>, sequence: nat)
    requires ConfigOk(c) && PeersOk(peers, c.size) && sequence < 0x1_0000_0000 && Framable(c, peers)
    ensures forall t | t in HelloTlvs(c, peers, sequence) :: Encodable(t)
    ensures var length := 20 + |Payload(HelloTlvs(c, peers, sequence))|;
            && length <= Predicted(c, peers)
            && (length == Predicted(c, peers) <==> Listed(peers) != [] && (c.counted > 0 ==> c.auth.Some?))
  {
    HelloPayload(c, peers, sequence);
    FixedLength(c);
    ListLength(peers, c.size);
  }

  /** Authentication, parameters and version come first. */
  function FixedPart(c: Config): seq<Tlv>
    requires ConfigOk(c)
  {
    AuthPart(c) + [Parameter(c), Tlv(SW_VERSION, c.version)]
  }

  lemma FixedLength(c: Config)
    requires ConfigOk(c)
    ensures forall t | t in FixedPart(c) :: Encodable(t)
    ensures |Payload(FixedPart(c))| == 12 + 8 + if c.auth.Some? then TLV_HDR + |c.auth.value| else 0
  {
    var a, m, v := AuthPart(c), [Parameter(c)], [Tlv(SW_VERSION, c.version)];
    assert FixedPart(c) == a + (m + v);
    PayloadConcat(a, m + v);
    PayloadConcat(m, v);
    PayloadOne(m[0]);
    PayloadOne(v[0]);
    if c.auth.Some? {
      PayloadOne(a[0]);
    }
  }

  // ----- validity -----

  lemma {:induction false} ListIsAddressList(addresses: seq<seq<Byte>>, size: Byte)
    requires forall i | 0 <= i < |addresses| :: |addresses[i]| == size
    ensures AddressList(ListBytes(addresses, size), size)
    decreases |addresses|
  {
    if addresses != [] {
      ListIsAddressList(addresses[1..], size);
      var v := ListBytes(addresses, size);
      assert v[1 + size..] == ListBytes(addresses[1..], size);
    }
  }

  lemma ParameterOk(c: Config, size: nat)
    requires ConfigOk(c)
    ensures TlvOk(Parameter(c), size) <==> c.hold != 0
  {
    var v := Parameter(c).value;
    assert v[6] == FromWord(c.hold)[0] && v[7] == FromWord(c.hold)[1];
  }

  lemma VariablePartOk(c: Config, peers: seq<Peer>, sequence: nat)
    requires ConfigOk(c) && PeersOk(peers, c.size) && sequence < 0x1_0000_0000
    ensures AllOk(SequencePart(c, peers) + [Tlv(NEXT_MCAST, FromLong(sequence))], c.size)
  {
    ListLength(peers, c.size);
    ListIsAddressList(Listed(peers), c.size);
  }

  lemma FixedPartOk(c: Config)
    requires ConfigOk(c)
    ensures AllOk(FixedPart(c), c.size) <==> c.hold != 0
    ensures HasParameter(FixedPart(c))
  {
    ParameterOk(c, c.size);
    assert FixedPart(c)[|AuthPart(c)|] == Parameter(c);
  }

  lemma AllOkConcat(a: seq<Tlv>, b: seq<Tlv>, size: nat)
    ensures AllOk(a + b, size) <==> AllOk(a, size) && AllOk(b, size)
    ensures HasParameter(a) ==> HasParameter(a + b)
  {
    assert forall i | 0 <= i < |a| :: (a + b)[i] == a[i];
    assert forall i | 0 <= i < |b| :: (a + b)[|a| + i] == b[i];
    if HasParameter(a) {
      var i :| 0 <= i < |a| && a[i].kind == PARAMETER;
      assert (a + b)[i].kind == PARAMETER;
    }
  }

  /** A SEQUENCE Hello passes the validator exactly when the hold time that is
      configured is not zero. */
  lemma HelloValidates(c: Config, peers: seq<Peer>, sequence: nat)
    requires ConfigOk(c) && PeersOk(peers, c.size) && sequence < 0x1_0000_0000 && Framable(c, peers)
    ensures forall t | t in HelloTlvs(c, peers, sequence) :: Encodable(t)
    ensures Validates(Payload(HelloTlvs(c, peers, sequence)), c.size) <==> c.hold != 0
  {
    var ts := HelloTlvs(c, peers, sequence);
    var tail := SequencePart(c, peers) + [Tlv(NEXT_MCAST, FromLong(sequence))];
    HelloEncodable(c, peers, sequence);
    ParsePayload(ts);
    FixedPartOk(c);
    VariablePartOk(c, peers, sequence);
    assert ts == FixedPart(c) + tail;
    AllOkConcat(FixedPart(c), tail, c.size);
  }

  // ----- the receiver -----

  /** `cr_mode` and `cr_sequence` of a neighbor. */
  datatype Cr = Cr(mode: bool, sequence: nat)

  /** What every DOWN transition resets them to. */
  const NO_CR := Cr(false, 0)

  /** The receiving interface: its address, its K-values, its address size. */
  datatype Local = Local(own: seq<Byte>, k: seq<Byte>, size: nat)

  /** The walk so far: the neighbor's state, what the TLVs said, and whether the
      walk was left because the neighbor is torn down or terminated others. */
  datatype Acc = Acc(cr: Cr, down: bool, seen: bool, listed: bool, next: nat, left: bool)

  function Start(cr: Cr, down: bool): Acc { Acc(cr, down, false, false, 0, false) }

  /** Does the list mention this address? The walk stops at a bad entry. */
  predicate Mentions(v: seq<Byte>, own: seq<Byte>, size: nat)
    decreases |v|
  {
    v != [] && v[0] != 0 && 1 + v[0] as int <= |v|
    && ((v[0] as int == size && v[1..1 + v[0] as int] == own) || Mentions(v[1 + v[0] as int..], own, size))
  }

  /** `eigrp_hello_goodbye` */
  predicate Goodbye(t: Tlv)
    requires |t.value| >= 5
  {
    forall i | 0 <= i < 5 :: t.value[i] == 0xff
  }

  /** `eigrp_hello_k_match` */
  predicate KMatch(k: seq<Byte>, sent: seq<Byte>)
    requires |k| >= 5 && |sent| >= 5
  {
    forall i | 0 <= i < 5 :: k[i] == sent[i]
  }

  /** `eigrp_hello_parameter_decode`: a goodbye deletes the neighbor, a mismatch
      takes it DOWN, a match starts a DOWN one. */
  function TakeParameter(t: Tlv, acc: Acc, k: seq<Byte>): Acc
    requires |t.value| >= 5 && |k| >= 5
  {
    if Goodbye(t) then acc.(cr := NO_CR, down := true, left := true)
    else if KMatch(k, t.value) then acc.(down := false)
    else if acc.down then acc
    else acc.(cr := NO_CR, down := true)
  }

  /** One TLV of the receive walk. */
  function Take(t: Tlv, acc: Acc, local: Local): Acc
    requires TlvOk(t, local.size) && |local.k| >= 5
  {
    if t.kind == PARAMETER then TakeParameter(t, acc, local.k)
    else if t.kind == SEQUENCE then acc.(seen := true, listed := Mentions(t.value, local.own, local.size))
    else if t.kind == NEXT_MCAST then acc.(next := Long(t.value, 0))
    else if t.kind == PEER_TERMINATION then
      if Mentions(t.value, local.own, local.size) then acc.(cr := NO_CR, down := true, left := true)
      else acc.(left := true)
    else acc
  }

  function Walk(ts: seq<Tlv>, acc: Acc, local: Local): Acc
    requires AllOk(ts, local.size) && |local.k| >= 5
    decreases |ts|
  {
    if ts == [] || acc.left then acc else Walk(ts[1..], Take(ts[0], acc, local), local)
  }

  /** The conditional-receive state after the walk. */
  function Settled(acc: Acc): Cr {
    if acc.left || !acc.seen then acc.cr
    else if !acc.listed && acc.next != 0 then Cr(true, acc.next)
    else NO_CR
  }

  /** `eigrp_hello_receive` from the validator on, for a neighbor that exists. */
  function Received(p: seq<Byte>, local: Local, cr: Cr, down: bool): Cr
    requires |local.k| >= 5
  {
    if Validates(p, local.size) then Settled(Walk(Parse(p).value, Start(cr, down), local)) else cr
  }

  /** `eigrp_packet_input_process` on a multicast with the CR flag */
  predicate AcceptsConditional(cr: Cr, sequence: nat) {
    cr.mode && (cr.sequence == 0 || cr.sequence == sequence)
  }

  lemma {:induction false} MentionsIsMember(addresses: seq<seq<Byte>>, own: seq<Byte>, size: Byte)
    requires size > 0 && forall i | 0 <= i < |addresses| :: |addresses[i]| == size
    ensures Mentions(ListBytes(addresses, size), own, size) <==> own in addresses
    decreases |addresses|
  {
    if addresses != [] {
      MentionsIsMember(addresses[1..], own, size);
      var v := ListBytes(addresses, size);
      assert v[1 + size..] == ListBytes(addresses[1..], size);
      assert v[1..1 + size] == addresses[0];
    }
  }

  lemma LongOf(sequence: nat)
    requires sequence < 0x1_0000_0000
    ensures Long(FromLong(sequence), 0) == sequence
  {
    LongPut(Zeros(4), 0, sequence);
    assert Put(Zeros(4), 0, FromLong(sequence)) == FromLong(sequence);
  }

  lemma {:induction false} WalkConcat(a: seq<Tlv>, b: seq<Tlv>, acc: Acc, local: Local)
    requires AllOk(a, local.size) && AllOk(b, local.size) && |local.k| >= 5
    ensures AllOk(a + b, local.size)
    ensures Walk(a + b, acc, local) == Walk(b, Walk(a, acc, local), local)
    decreases |a|
  {
    if a == [] {
      assert a + b == b;
    } else if !acc.left {
      assert (a + b)[1..] == a[1..] + b;
      WalkConcat(a[1..], b, Take(a[0], acc, local), local);
    }
  }

  lemma WalkOne(t: Tlv, acc: Acc, local: Local)
    requires TlvOk(t, local.size) && |local.k| >= 5 && !acc.left
    ensures Walk([t], acc, local) == Take(t, acc, local)
  {
    assert [t][1..] == [];
  }

  /** The neighbor's state once the sender's K-values were compared. */
  function Compared(acc: Acc, ours: seq<Byte>, theirs: seq<Byte>): Acc
    requires |ours| >= 5 && |theirs| >= 5
  {
    if KMatch(ours, theirs) then acc.(down := false)
    else if acc.down then acc
    else acc.(cr := NO_CR, down := true)
  }

  lemma ParameterTaken(c: Config, acc: Acc, local: Local)
    requires ConfigOk(c) && |local.k| >= 5 && exists i :: 0 <= i < 5 && c.k[i] != 0xff
    ensures TakeParameter(Parameter(c), acc, local.k) == Compared(acc, local.k, c.k)
  {
    var v := Parameter(c).value;
    assert forall i | 0 <= i < 5 :: v[i] == c.k[i];
  }

  lemma WalkFixed(c: Config, acc: Acc, local: Local)
    requires ConfigOk(c) && c.hold != 0 && exists i :: 0 <= i < 5 && c.k[i] != 0xff
    requires local.size == c.size && |local.k| >= 5 && !acc.left
    ensures AllOk(FixedPart(c), c.size)
    ensures Walk(FixedPart(c), acc, local) == Compared(acc, local.k, c.k)
  {
    FixedPartOk(c);
    var a, m, v := AuthPart(c), [Parameter(c)], [Tlv(SW_VERSION, c.version)];
    assert FixedPart(c) == a + (m + v);
    AllOkConcat(a, m + v, c.size);
    AllOkConcat(m, v, c.size);
    ParameterTaken(c, acc, local);
    if c.auth.Some? { WalkOne(a[0], acc, local); }
    WalkOne(m[0], acc, local);
    WalkOne(v[0], Compared(acc, local.k, c.k), local);
    WalkConcat(m, v, acc, local);
    WalkConcat(a, m + v, acc, local);
  }

  lemma WalkVariable(c: Config, peers: seq<Peer>, sequence: nat, acc: Acc, local: Local)
    requires ConfigOk(c) && PeersOk(peers, c.size) && sequence < 0x1_0000_0000
    requires local.size == c.size && |local.k| >= 5 && !acc.left && !acc.seen && !acc.listed
    ensures var tail := SequencePart(c, peers) + [Tlv(NEXT_MCAST, FromLong(sequence))];
            && AllOk(tail, c.size)
            && Walk(tail, acc, local)
                 == acc.(seen := Listed(peers) != [], listed := local.own in Listed(peers), next := sequence)
  {
    var n, z := SequencePart(c, peers), [Tlv(NEXT_MCAST, FromLong(sequence))];
    VariablePartOk(c, peers, sequence);
    AllOkConcat(n, z, c.size);
    ListLength(peers, c.size);
    MentionsIsMember(Listed(peers), local.own, c.size);
    LongOf(sequence);
    if Listed(peers) != [] { WalkOne(n[0], acc, local); }
    WalkOne(z[0], acc.(seen := Listed(peers) != [], listed := local.own in Listed(peers)), local);
    WalkConcat(n, z, acc, local);
  }

  lemma WalkHello(c: Config, peers: seq<Peer>, sequence: nat, local: Local, cr: Cr, down: bool)
    requires ConfigOk(c) && PeersOk(peers, c.size) && sequence < 0x1_0000_0000
    requires c.hold != 0 && exists i :: 0 <= i < 5 && c.k[i] != 0xff
    requires local.size == c.size && |local.k| >= 5
    ensures AllOk(HelloTlvs(c, peers, sequence), c.size)
    ensures Walk(HelloTlvs(c, peers, sequence), Start(cr, down), local)
              == Compared(Start(cr, down), local.k, c.k).(seen := Listed(peers) != [],
                                                           listed := local.own in Listed(peers), next := sequence)
  {
    var tail := SequencePart(c, peers) + [Tlv(NEXT_MCAST, FromLong(sequence))];
    assert HelloTlvs(c, peers, sequence) == FixedPart(c) + tail;
    var acc := Compared(Start(cr, down), local.k, c.k);
    WalkFixed(c, Start(cr, down), local);
    WalkVariable(c, peers, sequence, acc, local);
    WalkConcat(FixedPart(c), tail, Start(cr, down), local);
  }

  // ----- what any Hello does to its receiver -----

  predicate SameK(k: seq<Byte>, t: Tlv)
    requires |k| >= 5 && |t.value| >= 5
  {
    k[0] == t.value[0] && k[1] == t.value[1] && k[2] == t.value[2] && k[3] == t.value[3] && k[4] == t.value[4]
  }

  /** A goodbye, a Parameter TLV whose K-values are all 255, or a termination of
      peers ends the walk. */
  predicate EndsWalk(t: Tlv, size: nat)
    requires TlvOk(t, size)
  {
    t.kind == 7 || (t.kind == 1 && forall i | 0 <= i < 5 :: t.value[i] == 255)
  }

  /** The last TLV of a type; the length when there is none. */
  function LastOf(ts: seq<Tlv>, kind: nat): (i: nat)
    ensures i <= |ts|
    ensures i < |ts| ==> ts[i].kind == kind && forall j | i < j < |ts| :: ts[j].kind != kind
    ensures i == |ts| ==> forall j | 0 <= j < |ts| :: ts[j].kind != kind
  {
    if ts == [] then 0
    else
      var front := ts[..|ts| - 1];
      if ts[|ts| - 1].kind == kind then |ts| - 1
      else
        var i := LastOf(front, kind);
        if i < |front| then i else |ts|
  }

  lemma WalkLast(ts: seq<Tlv>, acc: Acc, local: Local)
    requires ts != [] && AllOk(ts, local.size) && |local.k| >= 5
    ensures var front := Walk(ts[..|ts| - 1], acc, local);
            Walk(ts, acc, local) == if front.left then front else Take(ts[|ts| - 1], front, local)
  {
    var front, last := ts[..|ts| - 1], ts[|ts| - 1..];
    assert ts == front + last && last[1..] == [];
    WalkConcat(front, last, acc, local);
  }

  /** What a walk to the end has heard: the last SEQUENCE says whether the receiver
      is listed, the last NEXT_MULTICAST_SEQUENCE for which number, the last
      Parameter whether the neighbor is up. The state falls back only if some
      K-values differ. */
  predicate Heard(ts: seq<Tlv>, cr: Cr, down: bool, local: Local, acc: Acc)
    requires AllOk(ts, local.size) && |local.k| >= 5
  {
    var (s, n, p) := (LastOf(ts, 3), LastOf(ts, 5), LastOf(ts, 1));
    && !acc.left
    && (acc.seen <==> s < |ts|)
    && (acc.listed <==> s < |ts| && Mentions(ts[s].value, local.own, local.size))
    && acc.next == (if n < |ts| then Long(ts[n].value, 0) else 0)
    && acc.down == (if p < |ts| then !SameK(local.k, ts[p]) else down)
    && (acc.cr == cr || (acc.cr == Cr(false, 0) && p < |ts|))
    && ((forall i | 0 <= i < |ts| && ts[i].kind == 1 :: SameK(local.k, ts[i])) ==> acc.cr == cr)
    && (!down && p < |ts| && !SameK(local.k, ts[p]) ==> acc.cr == Cr(false, 0))
  }

  lemma LastOfMore(front: seq<Tlv>, t: Tlv, kind: nat)
    ensures LastOf(front + [t], kind) ==
              if t.kind == kind then |front| else if LastOf(front, kind) < |front| then LastOf(front, kind) else |front| + 1
  {
    assert (front + [t])[..|front|] == front;
  }

  lemma HearParameter(front: seq<Tlv>, t: Tlv, cr: Cr, down: bool, local: Local, acc: Acc)
    requires AllOk(front + [t], local.size) && AllOk(front, local.size) && |local.k| >= 5
    requires Heard(front, cr, down, local, acc) && TlvOk(t, local.size) && t.kind == 1 && !EndsWalk(t, local.size)
    ensures Heard(front + [t], cr, down, local, Take(t, acc, local))
  {
    LastOfMore(front, t, 1);
    LastOfMore(front, t, 3);
    LastOfMore(front, t, 5);
    assert SameK(local.k, t) <==> KMatch(local.k, t.value);
    assert (front + [t])[|front|] == t;
    assert forall i | 0 <= i < |front| :: (front + [t])[i] == front[i];
  }

  lemma HearOther(front: seq<Tlv>, t: Tlv, cr: Cr, down: bool, local: Local, acc: Acc)
    requires AllOk(front + [t], local.size) && AllOk(front, local.size) && |local.k| >= 5
    requires Heard(front, cr, down, local, acc) && TlvOk(t, local.size) && t.kind != 1 && !EndsWalk(t, local.size)
    ensures Heard(front + [t], cr, down, local, Take(t, acc, local))
  {
    LastOfMore(front, t, 1);
    LastOfMore(front, t, 3);
    LastOfMore(front, t, 5);
    assert (front + [t])[|front|] == t;
    assert forall i | 0 <= i < |front| :: (front + [t])[i] == front[i];
  }

  /** A Hello without an end is heard to the end. */
  lemma {:induction false} WalkToTheEnd(ts: seq<Tlv>, cr: Cr, down: bool, local: Local)
    requires AllOk(ts, local.size) && |local.k| >= 5
    requires forall i | 0 <= i < |ts| :: !EndsWalk(ts[i], local.size)
    ensures Heard(ts, cr, down, local, Walk(ts, Start(cr, down), local))
    decreases |ts|
  {
    if ts != [] {
      var front, t := ts[..|ts| - 1], ts[|ts| - 1];
      WalkToTheEnd(front, cr, down, local);
      WalkLast(ts, Start(cr, down), local);
      var acc := Walk(front, Start(cr, down), local);
      assert ts == front + [t];
      if t.kind == 1 {
        HearParameter(front, t, cr, down, local, acc);
      } else {
        HearOther(front, t, cr, down, local, acc);
      }
    }
  }

  lemma Stopped(ts: seq<Tlv>, at: nat, acc: Acc, local: Local)
    requires AllOk(ts, local.size) && |local.k| >= 5 && at < |ts|
    ensures AllOk(ts[..at], local.size)
    ensures var heard := Walk(ts[..at], acc, local);
            !heard.left && Take(ts[at], heard, local).left ==> Walk(ts, acc, local) == Take(ts[at], heard, local)
  {
    var front, rest := ts[..at + 1], ts[at + 1..];
    assert ts == front + rest && front[..at] == ts[..at];
    AllOkConcat(front, rest, local.size);
    WalkLast(front, acc, local);
    WalkConcat(front, rest, acc, local);
  }

  /** A Hello whose walk ends early: nothing behind the end counts, nor does any
      SEQUENCE before it. A goodbye, and a termination that names the receiver,
      take the neighbor down; one that names others leaves it as it was heard. */
  lemma WalkEndsAt(ts: seq<Tlv>, at: nat, cr: Cr, down: bool, local: Local)
    requires AllOk(ts, local.size) && |local.k| >= 5 && at < |ts| && EndsWalk(ts[at], local.size)
    requires forall i | 0 <= i < at :: !EndsWalk(ts[i], local.size)
    ensures AllOk(ts[..at], local.size)
    ensures var acc := Walk(ts, Start(cr, down), local);
            var heard := Walk(ts[..at], Start(cr, down), local);
            && Settled(acc) == acc.cr
            && (if ts[at].kind == 1 || Mentions(ts[at].value, local.own, local.size)
                then acc.cr == Cr(false, 0) && acc.down
                else acc.cr == heard.cr && acc.down == heard.down)
  {
    Stopped(ts, at, Start(cr, down), local);
    WalkToTheEnd(ts[..at], cr, down, local);
  }

  /** Conditional receive is entered, for the sequence heard, exactly by a complete
      Hello that carries a SEQUENCE without the receiver and a number that is not
      zero; one that lists it, or carries no number, leaves it. */
  lemma ConditionalReceiveIs(ts: seq<Tlv>, cr: Cr, down: bool, local: Local)
    requires AllOk(ts, local.size) && |local.k| >= 5
    requires forall i | 0 <= i < |ts| :: !EndsWalk(ts[i], local.size)
    ensures var settled := Settled(Walk(ts, Start(cr, down), local));
            var (s, n) := (LastOf(ts, 3), LastOf(ts, 5));
            s < |ts| ==>
              settled == if !Mentions(ts[s].value, local.own, local.size) && n < |ts| && Long(ts[n].value, 0) != 0
                         then Cr(true, Long(ts[n].value, 0)) else Cr(false, 0)
  {
    WalkToTheEnd(ts, cr, down, local);
  }

  /** The agreement: a SEQUENCE Hello that lists some peer puts exactly the
      receivers it does not list into conditional receive for its sequence, so
      exactly these accept the multicast; one that lists nobody changes a
      receiver's state only by the reset of a K-value mismatch. */
  lemma ConditionalReceiveAgreement(c: Config, peers: seq<Peer>, sequence: nat, local: Local, cr: Cr, down: bool)
    requires ConfigOk(c) && PeersOk(peers, c.size) && Framable(c, peers)
    requires 0 < sequence < 0x1_0000_0000
    requires c.hold != 0 && exists i :: 0 <= i < 5 && c.k[i] != 0xff
    requires local.size == c.size && |local.k| >= 5
    ensures forall t | t in HelloTlvs(c, peers, sequence) :: Encodable(t)
    ensures var after := Received(Payload(HelloTlvs(c, peers, sequence)), local, cr, down);
            if Listed(peers) == [] then after == (if KMatch(local.k, c.k) || down then cr else NO_CR)
            else
              && after == (if local.own in Listed(peers) then NO_CR else Cr(true, sequence))
              && (AcceptsConditional(after, sequence) <==> local.own !in Listed(peers))
  {
    HelloValidates(c, peers, sequence);
    ParsePayload(HelloTlvs(c, peers, sequence));
    WalkHello(c, peers, sequence, local, cr, down);
  }

  // ----- in place -----

  class Output {
    var data: seq<Byte>

    /** `eigrp_sequence_encode`: the length is patched in once the busy peers are
        known; without any the TLV is taken back. */
    method SequenceEncode(c: Config, peers: seq<Peer>) returns (length: nat)
      requires ConfigOk(c) && PeersOk(peers, c.size) && Framable(c, peers)
      modifies this
      ensures data == old(data) + SequenceBytes(c, peers)
      ensures length == |SequenceBytes(c, peers)|
    {
      var value := ListPeers(c.size, peers);
      ListLength(peers, c.size);
      data, length := PutSequence(data, value);
    }

    /** `eigrp_hello_encode` with a SEQUENCE: the TLVs in the order of the code;
        the result is the packet's length. */
    method HelloEncode(c: Config, peers: seq<Peer>, sequence: nat) returns (length: nat)
      requires ConfigOk(c) && PeersOk(peers, c.size) && Framable(c, peers) && sequence < 0x1_0000_0000
      modifies this
      ensures forall t | t in HelloTlvs(c, peers, sequence) :: Encodable(t)
      ensures data == old(data) + Payload(HelloTlvs(c, peers, sequence))
      ensures length == 20 + |Payload(HelloTlvs(c, peers, sequence))|
    {
      HelloPayload(c, peers, sequence);
      var fixed, next := Payload(FixedPart(c)), TlvBytes(Tlv(NEXT_MCAST, FromLong(sequence)));
      data := data + fixed;
      var added := SequenceEncode(c, peers);
      data := data + next;
      length := HEADER_LEN + |fixed| + added + |next|;
      Associate(old(data), fixed, SequenceBytes(c, peers));
      Associate(old(data), fixed + SequenceBytes(c, peers), next);
    }
  }

  lemma SequencePartIs(c: Config, peers: seq<Peer>)
    requires ConfigOk(c) && PeersOk(peers, c.size) && Framable(c, peers)
    ensures forall t | t in SequencePart(c, peers) :: Encodable(t)
    ensures Payload(SequencePart(c, peers)) == SequenceBytes(c, peers)
  {
    ListLength(peers, c.size);
    if Listed(peers) != [] {
      PayloadOne(SequencePart(c, peers)[0]);
    }
  }

  lemma HelloPayload(c: Config, peers: seq<Peer>, sequence: nat)
    requires ConfigOk(c) && PeersOk(peers, c.size) && Framable(c, peers) && sequence < 0x1_0000_0000
    ensures forall t | t in HelloTlvs(c, peers, sequence) :: Encodable(t)
    ensures forall t | t in FixedPart(c) :: Encodable(t)
    ensures Payload(HelloTlvs(c, peers, sequence))
              == Payload(FixedPart(c)) + SequenceBytes(c, peers) + TlvBytes(Tlv(NEXT_MCAST, FromLong(sequence)))
  {
    HelloEncodable(c, peers, sequence);
    FixedLength(c);
    SequencePartIs(c, peers);
    var n, z := SequencePart(c, peers), [Tlv(NEXT_MCAST, FromLong(sequence))];
    assert HelloTlvs(c, peers, sequence) == FixedPart(c) + n + z;
    PayloadConcat(FixedPart(c) + n, z);
    PayloadConcat(FixedPart(c), n);
    PayloadOne(z[0]);
  }

  method PutSequence(before: seq<Byte>, value: seq<Byte>) returns (data: seq<Byte>, length: nat)
    requires TLV_HDR + |value| <= 0xffff
    ensures data == before + if value == [] then [] else TlvBytes(Tlv(SEQUENCE, value))
    ensures length == |data| - |before|
  {
    var kind, blank := FromWord(SEQUENCE), Zeros(2);
    data := before + (kind + blank) + value;
    length := TLV_HDR + |value|;
    var field := FromWord(length);
    Patched(before, kind, blank, field, value);
    if |value| == 0 {
      data := data[..|before|];
      length := 0;
    } else {
      data := Put(data, |before| + 2, field);
      assert TlvBytes(Tlv(SEQUENCE, value)) == kind + field + value;
    }
  }

  /** The SEQUENCE TLV on the wire, nothing without a busy peer. */
  function SequenceBytes(c: Config, peers: seq<Peer>): seq<Byte>
    requires ConfigOk(c) && PeersOk(peers, c.size) && Framable(c, peers)
  {
    ListLength(peers, c.size);
    if Listed(peers) == [] then []
    else TlvBytes(Tlv(SEQUENCE, ListBytes(Listed(peers), c.size)))
  }

  lemma Patched(d: seq<Byte>, kind: seq<Byte>, blank: seq<Byte>, length: seq<Byte>, value: seq<Byte>)
    requires |kind| == |blank| == |length| == 2
    ensures var e := d + (kind + blank) + value;
            && e[..|d|] == d == d + []
            && Put(e, |d| + 2, length) == d + (kind + length + value)
  {
    var e := d + (kind + blank) + value;
    assert Put(e, |d| + 2, length) == d + (kind + length + value);
  }

  /** The loop over the neighbors that appends the busy ones. */
  method ListPeers(size: Byte, peers: seq<Peer>) returns (value: seq<Byte>)
    ensures value == ListBytes(Listed(peers), size)
    ensures value == [] <==> Listed(peers) == []
  {
    value := [];
    for i := 0 to |peers|
      invariant value + ListBytes(Listed(peers[i..]), size) == ListBytes(Listed(peers), size)
      invariant value == [] ==> Listed(peers[i..]) == Listed(peers)
    {
      assert peers[i..][0] == peers[i] && peers[i..][1..] == peers[i + 1..];
      if peers[i].eligible && peers[i].busy {
        ghost var rest := Listed(peers[i + 1..]);
        assert Listed(peers[i..]) == [peers[i].address] + rest;
        assert Listed(peers[i..])[1..] == rest;
        value := value + ([size] + peers[i].address);
      } else {
        assert Listed(peers[i..]) == Listed(peers[i + 1..]);
      }
    }
    assert value + [] == value;
  }

  /** The receiver's record of the sender. */
  class Neighbor {
    var cr: Cr
    var down: bool

    /** `eigrp_hello_receive`, the validator first and then the walk. */
    method HelloReceive(p: seq<Byte>, local: Local)
      requires |local.k| >= 5
      modifies this
      ensures cr == Received(p, local, old(cr), old(down))
      ensures down == if Validates(p, local.size) then Walk(Parse(p).value, Start(old(cr), old(down)), local).down
                      else old(down)
    {
      var valid := TlvsValidate(p, local.size);
      if !valid {
        return;
      }
      var acc := WalkTlvs(p, local, Start(cr, down));
      down := acc.down;
      if acc.seen && !acc.left {
        var mode := !acc.listed && acc.next != 0;
        cr := Cr(mode, if mode then acc.next else 0);
      } else {
        cr := acc.cr;
      }
    }
  }

  /** The walk with its moving cursor. */
  method WalkTlvs(p: seq<Byte>, local: Local, start: Acc) returns (acc: Acc)
    requires |local.k| >= 5 && Validates(p, local.size)
    ensures acc == Walk(Parse(p).value, start, local)
  {
    acc := start;
    var cursor := p;
    while |cursor| > 0 && !acc.left
      invariant Parse(cursor).Some? && AllOk(Parse(cursor).value, local.size)
      invariant Walk(Parse(cursor).value, acc, local) == Walk(Parse(p).value, start, local)
      decreases |cursor|
    {
      var length := Word(cursor, 2);
      var t := Tlv(Word(cursor, 0), cursor[TLV_HDR..length]);
      ParseMoves([], t, cursor, length);
      ghost var rest := Parse(cursor[length..]).value;
      assert Parse(cursor).value == [t] + rest;
      assert Parse(cursor).value[0] == t && Parse(cursor).value[1..] == rest;
      AllOkConcat([t], rest, local.size);
      acc := TakeOne(t, acc, local);
      cursor := cursor[length..];
    }
  }

  method TakeOne(t: Tlv, acc: Acc, local: Local) returns (r: Acc)
    requires TlvOk(t, local.size) && |local.k| >= 5
    ensures r == Take(t, acc, local)
  {
    r := acc;
    if t.kind == PARAMETER {
      r := TakeParameter(t, acc, local.k);
    } else if t.kind == SEQUENCE {
      var listed := Scan(t.value, local.own, local.size);
      r := acc.(seen := true, listed := listed);
    } else if t.kind == NEXT_MCAST {
      r := acc.(next := Long(t.value, 0));
    } else if t.kind == PEER_TERMINATION {
      var named := Scan(t.value, local.own, local.size);
      r := acc.(left := true);
      if named {
        r := r.(cr := NO_CR, down := true);
      }
    }
  }

  /** An entry seen from its position is the entry seen from the start. */
  lemma EntryAt(v: seq<Byte>, at: nat, n: nat)
    requires at + 1 + n <= |v|
    ensures v[at..][1..1 + n] == v[at + 1..at + 1 + n]
    ensures v[at..][1 + n..] == v[at + 1 + n..]
  {
  }

  /** The receiver looks for its own address in the list. */
  method Scan(v: seq<Byte>, own: seq<Byte>, size: nat) returns (listed: bool)
    ensures listed <==> Mentions(v, own, size)
  {
    listed := false;
    var at := 0;
    while at < |v|
      invariant at <= |v|
      invariant Mentions(v, own, size) <==> listed || Mentions(v[at..], own, size)
    {
      var n := v[at] as int;
      ghost var here := v[at..];
      assert here[0] == v[at];
      if n == 0 || at + 1 + n > |v| {
        break;
      }
      EntryAt(v, at, n);
      if n == size && v[at + 1..at + 1 + n] == own {
        listed := true;
      }
      at := at + 1 + n;
    }
  }
}
