/**
 Conditional receive end to end: the transport admits a multicast while some
 peers are busy, its SEQUENCE Hello names these, and the receivers decide.
 */
module ConditionalReceive {
  import opened Bytes
  import opened Common
  import opened RtpModel
  import opened RtpOrder
  import Hello
  import Serial

  /** The neighbors of the interface with their addresses as the sender has them. */
  datatype Listing = Listing(nbrs: seq<PeerId>, address: map<PeerId, seq<Byte>>)

  ghost predicate Lists(l: Listing, s: Rtp, size: nat) {
    && (forall p :: p in l.nbrs <==> p in s.peers)
    && (forall p :: p in s.peers ==> p in l.address && |l.address[p]| == size)
    && (forall p, q :: p in s.peers && q in s.peers && p != q ==> l.address[p] != l.address[q])
  }

  /** What the Hello's walk over the neighbors finds for a multicast. */
  function PeersFor(l: Listing, s: Rtp, m: Mcast): (r: seq<Hello.Peer>)
    requires forall p :: p in l.nbrs ==> p in s.peers && p in l.address
    ensures |r| == |l.nbrs|
    ensures forall i | 0 <= i < |r| ::
              r[i] == Hello.Peer(l.address[l.nbrs[i]], Receives(s, m, l.nbrs[i]),
                                 PriorCount(s.peers[l.nbrs[i]].queue, m.n) > 0)
  {
    seq(|l.nbrs|, i requires 0 <= i < |l.nbrs| =>
      Hello.Peer(l.address[l.nbrs[i]], Receives(s, m, l.nbrs[i]), PriorCount(s.peers[l.nbrs[i]].queue, m.n) > 0))
  }

  /** The Hello lists exactly the peers that are busy for the multicast. */
  lemma ListedIsBusy(l: Listing, s: Rtp, m: Mcast, size: nat, p: PeerId)
    requires Lists(l, s, size) && p in s.peers
    ensures l.address[p] in Hello.Listed(PeersFor(l, s, m)) <==> BusyFor(s, m, p)
  {
    var peers := PeersFor(l, s, m);
    Hello.ListedIs(peers, l.address[p]);
    var k :| 0 <= k < |l.nbrs| && l.nbrs[k] == p;
    assert peers[k].address == l.address[p];
    forall i | 0 <= i < |peers| && peers[i].address == l.address[p] ensures l.nbrs[i] == p {
      assert l.nbrs[i] in l.nbrs;
    }
  }

  /** The oldest multicast goes out with the CR flag: some receiver is busy and
      its SEQUENCE Hello fits the interface. */
  ghost predicate Announced(s: Rtp, l: Listing, c: Hello.Config, mtu: nat) {
    && PendingOk(s) && s.pending != [] && AnyBusy(s, s.pending[0])
    && Hello.ConfigOk(c) && Lists(l, s, c.size) && mtu <= 0xffff
    && c.hold != 0 && (exists i :: 0 <= i < 5 && c.k[i] != 0xff)
    && Judge(s, Hello.Predicted(c, PeersFor(l, s, s.pending[0])) <= Hello.PayloadLimit(mtu), true) == Go
  }

  lemma AnnouncedIsFramed(s: Rtp, l: Listing, c: Hello.Config, mtu: nat)
    requires Announced(s, l, c, mtu)
    ensures var peers := PeersFor(l, s, s.pending[0]);
            Hello.PeersOk(peers, c.size) && Hello.Framable(c, peers) && Hello.Listed(peers) != []
  {
    var m := s.pending[0];
    var peers := PeersFor(l, s, m);
    forall i | 0 <= i < |peers| ensures |peers[i].address| == c.size { assert l.nbrs[i] in l.nbrs; }
    Hello.FittingIsFramable(c, peers, mtu);
    var b :| BusyFor(s, m, b);
    ListedIsBusy(l, s, m, c.size, b);
  }

  /** The payload of the Hello that announces it. */
  ghost function Announcement(s: Rtp, l: Listing, c: Hello.Config, mtu: nat): seq<Byte>
    requires Announced(s, l, c, mtu)
  {
    var peers, n := PeersFor(l, s, s.pending[0]), Serial.Wire(s.pending[0].n);
    AnnouncedIsFramed(s, l, c, mtu);
    Hello.HelloEncodable(c, peers, n);
    Hello.Payload(Hello.HelloTlvs(c, peers, n))
  }

  /** A neighbor that gets the Hello and then the multicast accepts it exactly
      when it is not busy -- of the receivers, exactly the ready ones. */
  lemma MulticastReachesTheReady(s: Rtp, l: Listing, c: Hello.Config, mtu: nat,
                                 p: PeerId, local: Hello.Local, cr: Hello.Cr, down: bool)
    requires Announced(s, l, c, mtu)
    requires p in s.peers && local.own == l.address[p] && local.size == c.size && |local.k| >= 5
    ensures var m := s.pending[0];
            var after := Hello.Received(Announcement(s, l, c, mtu), local, cr, down);
            var accepts := Hello.AcceptsConditional(after, Serial.Wire(m.n));
            && (accepts <==> !BusyFor(s, m, p))
            && (Receives(s, m, p) ==> (accepts <==> ReadyFor(s, m, p)))
  {
    var m := s.pending[0];
    AnnouncedIsFramed(s, l, c, mtu);
    Hello.ConditionalReceiveAgreement(c, PeersFor(l, s, m), Serial.Wire(m.n), local, cr, down);
    ListedIsBusy(l, s, m, c.size, p);
  }
}
