/**
 The transmit side of one interface as the source runs it: queues walked in
 loops, 32-bit sequence comparison, neighbor and interface fields updated in
 place. Each method is proved to take the corresponding step of `RtpModel`.
 */
module RtpTransmit {
  import opened Common
  import opened RtpModel
  import opened RtpOrder
  import opened RtpWakeup
  import RtpDelivery
  import RtpOutput
  import opened Serial

  /** Index n is within the half-space of the next one to be reserved. */
  predicate Live(n: nat, next: nat) {
    1 <= n <= next && next - n < LIVE_SPAN
  }

  /** `eigrp_packet_sequence_before` on the sequence numbers of two indices. */
  predicate Precedes(a: nat, b: nat)
    requires a >= 1 && b >= 1
  {
    Before(Wire(a), Wire(b))
  }

  ghost predicate LiveQueue(q: seq<Entry>, next: nat) {
    forall i :: 0 <= i < |q| ==> Live(q[i].n, next)
  }

  ghost predicate LivePending(pending: seq<Mcast>, next: nat) {
    && (forall i, j :: 0 <= i < j < |pending| ==> pending[i].n < pending[j].n)
    && (forall i :: 0 <= i < |pending| ==> Live(pending[i].n, next))
  }

  /** `eigrp_packet_reliable_prior_count`, by wire sequence number. */
  method ReliablePriorCount(q: seq<Entry>, n: nat, ghost next: nat) returns (count: nat)
    requires LiveQueue(q, next) && Live(n, next)
    ensures count == PriorCount(q, n)
  {
    PriorCountFront(q, n);
    count := 0;
    while count < |q| && Precedes(q[count].n, n)
      invariant count <= PriorCount(q, n)
    {
      BeforeIsOrder(q[count].n, n);
      count := count + 1;
    }
    if count < |q| { BeforeIsOrder(q[count].n, n); }
  }

  /** `eigrp_packet_reliable_ordered_enqueue` */
  method ReliableOrderedEnqueue(q: seq<Entry>, e: Entry, ghost next: nat) returns (r: seq<Entry>)
    requires LiveQueue(q, next) && Live(e.n, next)
    ensures r == Insert(q, e)
  {
    InsertAt(q, e);
    PriorCountFront(q, e.n);
    var at := 0;
    while at < |q| && Precedes(q[at].n, e.n)
      invariant at <= PriorCount(q, e.n)
    {
      BeforeIsOrder(q[at].n, e.n);
      at := at + 1;
    }
    if at < |q| { BeforeIsOrder(q[at].n, e.n); }
    r := q[..at] + [e] + q[at..];
  }

  /** `eigrp_packet_unicast_behind_multicast` */
  method UnicastBehindMulticast(pending: seq<Mcast>, peer: Peer, n: nat, ghost next: nat) returns (behind: bool)
    requires LivePending(pending, next) && Live(n, next)
    ensures behind == Behind(pending, peer, n)
  {
    var i := 0;
    while i < |pending|
      invariant i <= |pending|
      invariant forall k :: 0 <= k < i ==> !Eligible(peer, pending[k].epoch)
    {
      BeforeIsOrder(pending[i].n, n);
      if !Precedes(pending[i].n, n) {
        return false;
      }
      if Eligible(peer, pending[i].epoch) {
        return true;
      }
      i := i + 1;
    }
    return false;
  }

  /** All live sequence numbers lie within half the space. */
  ghost predicate LiveState(s: Rtp) {
    && s.next >= 1
    && LivePending(s.pending, s.next)
    && (forall p :: p in s.peers ==> LiveQueue(s.peers[p].queue, s.next))
    && (forall p :: p in s.peers && s.peers[p].held.Some? ==> Live(s.peers[p].held.value, s.next))
    && (forall image :: image in s.obuf ==> Live(image.n, s.next))
  }

  lemma LiveResume(s: Rtp)
    requires LiveState(s)
    ensures LiveState(Resume(s))
  {
    ResumeFrame(s);
  }

  lemma LiveDrop(s: Rtp, p: PeerId, n: nat, retriesOnly: bool)
    requires LiveState(s)
    ensures LiveState(DropOutput(s, p, n, retriesOnly))
  {
    DropKeeps(s.obuf, p, n, retriesOnly);
  }

  lemma LiveHead(s: Rtp, p: PeerId, e: Entry)
    requires LiveState(s) && HasHead(s, p) && e.n == s.peers[p].queue[0].n
    ensures LiveState(WithHead(s, p, e))
  {
    assert LiveQueue(s.peers[p].queue, s.next);
    assert LiveQueue(s.peers[p].queue[0 := e], s.next);
  }

  lemma LiveOffer(s: Rtp, p: PeerId, retrans: bool)
    requires LiveState(s) && HasHead(s, p)
    ensures LiveState(Offer(s, p, retrans))
  {
    assert LiveQueue(s.peers[p].queue, s.next);
  }

  lemma LiveAppend(s: Rtp, p: PeerId, n: nat)
    requires LiveState(s) && p in s.peers && Live(n, s.next)
    ensures LiveState(s.(peers := s.peers[p := s.peers[p].(queue := s.peers[p].queue + [Fresh(n)])]))
  {
    assert LiveQueue(s.peers[p].queue, s.next);
    assert LiveQueue(s.peers[p].queue + [Fresh(n)], s.next);
  }

  lemma LiveDequeue(s: Rtp, p: PeerId)
    requires LiveState(s) && HasHead(s, p)
    ensures LiveState(Dequeued(s, p))
  {
    LiveDrop(s, p, s.peers[p].queue[0].n, true);
    assert LiveQueue(s.peers[p].queue, s.next);
    assert LiveQueue(s.peers[p].queue[1..], s.next);
  }

  lemma LiveCopy(q: seq<Entry>, n: nat, next: nat)
    requires LiveQueue(q, next) && Live(n, next)
    ensures LiveQueue(Insert(q, Fresh(n)), next)
  {
    InsertIndex(q, Fresh(n));
    var k, r := PriorCount(q, n), Insert(q, Fresh(n));
    forall i | 0 <= i < |r| ensures Live(r[i].n, next) {
      assert i > k ==> Live(q[i - 1].n, next);
    }
  }

  lemma LiveAdmitted(s: Rtp)
    requires LiveState(s) && s.pending != []
    ensures LiveState(Admitted(s))
  {
    var t := Admitted(s);
    forall p | p in t.peers ensures LiveQueue(t.peers[p].queue, t.next) {
      assert LiveQueue(s.peers[p].queue, s.next);
      if Eligible(s.peers[p], s.pending[0].epoch) {
        LiveCopy(s.peers[p].queue, s.pending[0].n, s.next);
      }
    }
  }

  lemma LiveWire(s: Rtp, ok: bool)
    requires LiveState(s) && s.obuf != []
    ensures LiveState(WireStep(s, ok))
  {
    var t := WireStep(s, ok);
    forall p | p in t.peers ensures LiveQueue(t.peers[p].queue, t.next) {
      assert LiveQueue(s.peers[p].queue, s.next);
    }
  }

  // ----- walks over the neighbor list -----

  ghost predicate NbrsOk(nbrs: seq<PeerId>, peers: map<PeerId, Peer>) {
    && (forall p :: p in nbrs <==> p in peers)
    && (forall i, j :: 0 <= i < j < |nbrs| ==> nbrs[i] != nbrs[j])
  }

  datatype Census = Census(receivers: nat, busy: nat, ready: nat, full: nat)

  function CensusOf(peers: map<PeerId, Peer>, m: Mcast, ids: seq<PeerId>): Census
    requires forall i :: 0 <= i < |ids| ==> ids[i] in peers
  {
    if ids == [] then Census(0, 0, 0, 0)
    else
      var c := CensusOf(peers, m, ids[..|ids| - 1]);
      var peer := peers[ids[|ids| - 1]];
      if !Eligible(peer, m.epoch) then c
      else
        var prior := PriorCount(peer.queue, m.n);
        Census(c.receivers + 1,
               if prior > 0 then c.busy + 1 else c.busy,
               if prior > 0 then c.ready else c.ready + 1,
               if prior >= RELIABLE_MAX then c.full + 1 else c.full)
  }

  /** The neighbor walk shared by `..._multicast_resume` and `..._admit`. */
  method TakeCensus(nbrs: seq<PeerId>, peers: map<PeerId, Peer>, m: Mcast, ghost next: nat) returns (c: Census)
    requires NbrsOk(nbrs, peers) && Live(m.n, next)
    requires forall p :: p in peers ==> LiveQueue(peers[p].queue, next)
    ensures forall i :: 0 <= i < |nbrs| ==> nbrs[i] in peers
    ensures c == CensusOf(peers, m, nbrs)
  {
    assert forall i :: 0 <= i < |nbrs| ==> nbrs[i] in nbrs;
    c := Census(0, 0, 0, 0);
    for i := 0 to |nbrs|
      invariant c == CensusOf(peers, m, nbrs[..i])
    {
      var peer := peers[nbrs[i]];
      assert nbrs[..i + 1][..i] == nbrs[..i];
      if Eligible(peer, m.epoch) {
        var prior := ReliablePriorCount(peer.queue, m.n, next);
        c := Census(c.receivers + 1,
                    if prior > 0 then c.busy + 1 else c.busy,
                    if prior > 0 then c.ready else c.ready + 1,
                    if prior >= RELIABLE_MAX then c.full + 1 else c.full);
      }
    }
    assert nbrs[..|nbrs|] == nbrs;
  }

  lemma InFront(ids: seq<PeerId>)
    requires ids != []
    ensures forall p :: p in ids <==> p in ids[..|ids| - 1] || p == ids[|ids| - 1]
  {
    assert ids == ids[..|ids| - 1] + [ids[|ids| - 1]];
  }

  /** Counting over the list decides what holds of some neighbor. */
  lemma {:induction false} CensusCounts(s: Rtp, m: Mcast, ids: seq<PeerId>)
    requires forall i :: 0 <= i < |ids| ==> ids[i] in s.peers
    ensures var c := CensusOf(s.peers, m, ids);
            && (c.receivers > 0 <==> exists p :: p in ids && Receives(s, m, p))
            && (c.busy > 0 <==> exists p :: p in ids && BusyFor(s, m, p))
            && (c.ready > 0 <==> exists p :: p in ids && ReadyFor(s, m, p))
            && (c.full > 0 <==> exists p :: p in ids && Receives(s, m, p)
                                            && PriorCount(s.peers[p].queue, m.n) >= RELIABLE_MAX)
  {
    if ids != [] {
      var front, last := ids[..|ids| - 1], ids[|ids| - 1];
      CensusCounts(s, m, front);
      InFront(ids);
      assert last in ids;
    }
  }

  lemma CensusDecides(s: Rtp, m: Mcast, nbrs: seq<PeerId>)
    requires NbrsOk(nbrs, s.peers) && forall i :: 0 <= i < |nbrs| ==> nbrs[i] in s.peers
    ensures var c := CensusOf(s.peers, m, nbrs);
            && (c.receivers > 0 <==> AnyReceives(s, m))
            && (c.busy > 0 <==> AnyBusy(s, m))
            && (c.ready > 0 <==> AnyReady(s, m))
            && (c.full > 0 <==> AnyFull(s, m))
  {
    CensusCounts(s, m, nbrs);
    if AnyReceives(s, m) { var p :| Receives(s, m, p); assert p in nbrs; }
    if AnyBusy(s, m) { var p :| BusyFor(s, m, p); assert p in nbrs; }
    if AnyReady(s, m) { var p :| ReadyFor(s, m, p); assert p in nbrs; }
    if AnyFull(s, m) {
      var p :| Receives(s, m, p) && PriorCount(s.peers[p].queue, m.n) >= RELIABLE_MAX;
      assert p in nbrs;
    }
  }

  /** The second walk of `..._admit`: a copy for each eligible neighbor. */
  method Distribute(nbrs: seq<PeerId>, peers: map<PeerId, Peer>, m: Mcast, ghost next: nat)
    returns (r: map<PeerId, Peer>)
    requires NbrsOk(nbrs, peers) && Live(m.n, next)
    requires forall p :: p in peers ==> LiveQueue(peers[p].queue, next)
    ensures r == Copied(peers, m)
  {
    assert forall i :: 0 <= i < |nbrs| ==> nbrs[i] in nbrs;
    r := peers;
    for i := 0 to |nbrs|
      invariant r.Keys == peers.Keys
      invariant forall p :: p in peers ==>
                  r[p] == if p in nbrs[..i] && Eligible(peers[p], m.epoch) then WithCopy(peers[p], m.n) else peers[p]
    {
      var peer := peers[nbrs[i]];
      assert nbrs[..i + 1] == nbrs[..i] + [nbrs[i]];
      if Eligible(peer, m.epoch) {
        var prior := ReliablePriorCount(peer.queue, m.n, next);
        var queue := ReliableOrderedEnqueue(peer.queue, Fresh(m.n), next);
        r := r[nbrs[i] := peer.(queue := queue, offers := if prior == 0 then peer.offers + [m.n] else peer.offers)];
      }
    }
    assert nbrs[..|nbrs|] == nbrs;
  }

  /** One neighbor's part of `..._reliable_send_update` and
      `..._reliable_send_failure_update`, by wire sequence number. */
  method SendUpdate(peer: Peer, image: Image, ok: bool, ghost next: nat) returns (r: Peer)
    requires LiveQueue(peer.queue, next) && Live(image.n, next)
    ensures r == SendEffect(peer, image, ok)
  {
    if peer.queue == [] {
      return peer;
    }
    BeforeIsOrder(peer.queue[0].n, image.n);
    if Wire(peer.queue[0].n) != Wire(image.n) {
      return peer;
    }
    var head := peer.queue[0];
    if image.retrans {
      head := head.(retryQueued := false, timer := true);
      if ok {
        head := head.(retries := head.retries + 1);
      }
    } else if !ok {
      head := head.(timer := true);
    } else if !head.sent {
      head := head.(sent := true, timer := true);
    }
    r := peer.(queue := peer.queue[0 := head]);
  }

  /** The update has reached the neighbors `done`. */
  ghost predicate SentPart(r: map<PeerId, Peer>, peers: map<PeerId, Peer>, done: seq<PeerId>, image: Image, ok: bool) {
    && r.Keys == peers.Keys
    && (forall p :: p in peers ==>
          r[p] == if p in done && Reaches(image, p) then SendEffect(peers[p], image, ok) else peers[p])
  }

  lemma SentOneMore(r: map<PeerId, Peer>, peers: map<PeerId, Peer>, done: seq<PeerId>, q: PeerId, image: Image, ok: bool)
    requires SentPart(r, peers, done, image, ok) && q in peers
    ensures var r' := if Reaches(image, q) then r[q := SendEffect(peers[q], image, ok)] else r;
            SentPart(r', peers, done + [q], image, ok)
  {}

  /** One multicast wire send starts the clock of every neighbor that owns the
      sequence; a unicast one only that of its own neighbor. */
  method SendUpdates(nbrs: seq<PeerId>, peers: map<PeerId, Peer>, image: Image, ok: bool, ghost next: nat)
    returns (r: map<PeerId, Peer>)
    requires NbrsOk(nbrs, peers) && Live(image.n, next)
    requires forall p :: p in peers ==> LiveQueue(peers[p].queue, next)
    ensures r == SentTo(peers, image, ok)
  {
    assert forall i :: 0 <= i < |nbrs| ==> nbrs[i] in nbrs;
    r := peers;
    for i := 0 to |nbrs|
      invariant SentPart(r, peers, nbrs[..i], image, ok)
    {
      assert nbrs[..i + 1] == nbrs[..i] + [nbrs[i]];
      SentOneMore(r, peers, nbrs[..i], nbrs[i], image, ok);
      if image.to == ToAll || image.to == ToPeer(nbrs[i]) {
        var peer := SendUpdate(peers[nbrs[i]], image, ok, next);
        r := r[nbrs[i] := peer];
      }
    }
    assert nbrs[..|nbrs|] == nbrs;
  }

  // ----- the interface -----

  class Transmit {
    var nbrs: seq<PeerId>
    var peers: map<PeerId, Peer>
    var pending: seq<Mcast>
    var obuf: seq<Image>
    var epoch: nat
    var next: nat
    var backoff: bool
    var waiting: bool
    var retryTimer: bool
    var onWriteQ: bool
    ghost var wire: seq<Image>

    ghost function View(): Rtp
      reads this
    {
      Rtp(peers, pending, obuf, epoch, next, backoff, waiting, retryTimer, onWriteQ, wire)
    }

    ghost predicate Valid()
      reads this
    {
      NbrsOk(nbrs, peers) && LiveState(View())
    }

    constructor ()
      ensures Valid() && View() == INITIAL
    {
      nbrs, peers, pending, obuf := [], map[], [], [];
      epoch, next := 0, 1;
      backoff, waiting, retryTimer, onWriteQ := false, false, false, false;
      wire := [];
    }

    /** `eigrp_packet_multicast_resume` */
    method MulticastResume()
      requires Valid()
      modifies this`backoff, this`waiting, this`onWriteQ
      ensures Valid() && View() == Resume(old(View()))
    {
      LiveResume(View());
      if pending == [] || retryTimer {
        return;
      }
      var c := TakeCensus(nbrs, peers, pending[0], next);
      CensusDecides(View(), pending[0], nbrs);
      if backoff {
        if c.busy > 0 {
          return;
        }
        backoff := false;
      }
      if waiting && c.receivers > 0 && c.ready == 0 {
        return;
      }
      waiting := false;
      onWriteQ := true;
    }

    /** `eigrp_packet_multicast_reliable_enqueue`, on a fresh sequence that
        leaves all live numbers within half the space. */
    method MulticastReliableEnqueue()
      requires Valid() && LiveState(WithMulticast(View()))
      modifies this
      ensures Valid() && View() == Resume(WithMulticast(old(View())))
      ensures nbrs == old(nbrs)
      ensures old(RtpInv(View(), false)) ==>
                forall p: PeerId :: RtpDelivery.Owed(View(), p, old(next)) <==> RtpDelivery.IsUp(old(View()), p)
    {
      ghost var t := WithMulticast(View());
      if RtpInv(View(), false) {
        forall p: PeerId
          ensures RtpDelivery.Owed(Resume(t), p, next) <==> RtpDelivery.IsUp(View(), p)
        {
          RtpDelivery.MulticastOwedExactly(View(), p);
        }
      }
      pending := pending + [Mcast(next, epoch)];
      next := next + 1;
      assert View() == t;
      MulticastResume();
    }

    /** The checks of `eigrp_packet_multicast_admit`, in its order. */
    method JudgeOldest(fits: bool, alloc: bool) returns (v: Verdict)
      requires Valid()
      ensures v == Judge(View(), fits, alloc)
    {
      if backoff || waiting || retryTimer || pending == [] {
        return Blocked;
      }
      var c := TakeCensus(nbrs, peers, pending[0], next);
      CensusDecides(View(), pending[0], nbrs);
      if c.full > 0 {
        return BackOff;
      } else if c.receivers == 0 {
        return Cancel;
      } else if c.ready == 0 {
        return Wait;
      } else if c.busy > 0 && !fits {
        return BackOff;
      } else if !alloc {
        return Delay;
      }
      return Go;
    }

    method AdmitOldest()
      requires Valid() && pending != []
      modifies this`peers, this`pending, this`obuf, this`onWriteQ
      ensures Valid() && View() == Admitted(old(View()))
    {
      LiveAdmitted(View());
      var m := pending[0];
      peers := Distribute(nbrs, peers, m, next);
      pending := pending[1..];
      obuf := obuf + [Image(m.n, ToAll, false)];
      onWriteQ := true;
    }

    method CancelOldest()
      requires Valid() && pending != []
      modifies this`pending, this`backoff, this`waiting, this`onWriteQ
      ensures Valid() && View() == Resume(old(View()).(pending := old(pending)[1..]))
    {
      pending := pending[1..];
      MulticastResume();
    }

    /** `eigrp_packet_multicast_admit`: nothing is touched before the last check. */
    method MulticastAdmit(fits: bool, alloc: bool)
      requires Valid()
      modifies this
      ensures Valid() && View() == AdmitStep(old(View()), fits, alloc)
      ensures nbrs == old(nbrs)
    {
      var v := JudgeOldest(fits, alloc);
      match v
      case Blocked =>
      case BackOff => backoff := true;
      case Cancel => CancelOldest();
      case Wait => waiting := true;
      case Delay => retryTimer := true;
      case Go => AdmitOldest();
    }

    /** `eigrp_packet_send_reliably` */
    method SendHead(p: PeerId, alloc: bool)
      requires Valid() && p in peers
      modifies this`peers, this`obuf, this`onWriteQ
      ensures Valid() && View() == SendReliably(old(View()), p, alloc)
    {
      var peer := peers[p];
      if peer.queue == [] {
        return;
      }
      var behind := UnicastBehindMulticast(pending, peer, peer.queue[0].n, next);
      if behind {
        return;
      }
      if alloc {
        OfferHead(p, false);
      } else {
        UpdateHead(p, peer.queue[0].(timer := true));
      }
    }

    /** Link a packet to a neighbor's reliable queue, and send it if it is alone
        (`eigrp_packetizer_builder_flush`, `eigrp_update_neighbor_packet_queue`). */
    method LinkReliable(p: PeerId, n: nat, alloc: bool)
      requires Valid() && p in peers && Live(n, next)
      modifies this`peers, this`obuf, this`onWriteQ
      ensures Valid() && View() == EnqueueUnicast(old(View()), p, n, alloc)
    {
      LiveAppend(View(), p, n);
      var wasEmpty := peers[p].queue == [];
      peers := peers[p := peers[p].(queue := peers[p].queue + [Fresh(n)])];
      if wasEmpty {
        SendHead(p, alloc);
      }
    }

    /** A neighbor leaves its adjacency: its packets go, and with `purge` its
        images in the output queue. */
    method NeighborDown(p: PeerId, purge: bool)
      requires Valid() && p in peers
      modifies this`peers, this`obuf, this`backoff, this`waiting, this`onWriteQ
      ensures Valid() && View() == DownStep(old(View()), p, purge, false)
    {
      if purge {
        NeighborOutputDrop(p, 0, false);
      }
      peers := peers[p := peers[p].(link := Down, queue := [], init := 0, held := None, offers := [])];
      MulticastResume();
    }

    /** `eigrp_packet_neighbor_output_drop` */
    method NeighborOutputDrop(p: PeerId, n: nat, retriesOnly: bool)
      requires Valid()
      modifies this`obuf, this`onWriteQ
      ensures Valid() && View() == DropOutput(old(View()), p, n, retriesOnly)
    {
      LiveDrop(View(), p, n, retriesOnly);
      var kept := [];
      var i := |obuf|;
      while i > 0
        invariant 0 <= i <= |obuf| && obuf == old(obuf) && onWriteQ == old(onWriteQ)
        invariant kept == Drop(obuf[i..], p, n, retriesOnly)
      {
        i := i - 1;
        var image := obuf[i];
        assert obuf[i..] == [image] + obuf[i + 1..];
        if !(image.to == ToPeer(p) && (!retriesOnly || (image.retrans && image.n == n))) {
          kept := [image] + kept;
        }
      }
      assert obuf[0..] == obuf;
      obuf := kept;
      if obuf == [] {
        onWriteQ := false;
      }
    }

    /** The head and any queued retry of it leave. */
    method Dequeue(p: PeerId)
      requires Valid() && p in peers && peers[p].queue != []
      modifies this`peers, this`obuf, this`onWriteQ
      ensures Valid() && View() == Dequeued(old(View()), p)
    {
      LiveDequeue(View(), p);
      var peer := peers[p];
      if peer.queue[0].retryQueued {
        NeighborOutputDrop(p, peer.queue[0].n, true);
      }
      peers := peers[p := peer.(queue := peer.queue[1..])];
    }

    /** `eigrp_packet_ack`: an acknowledgment that does not carry the head's
        sequence number is ignored; one that does takes the step `Ack`. */
    method PacketAck(p: PeerId, ack: uint32, alloc: bool) returns (matched: bool)
      requires Valid() && p in peers
      requires HasHead(View(), p) ==> LiveState(CameUp(Resume(Dequeued(View(), p)), p))
      modifies this
      ensures Valid() && nbrs == old(nbrs)
      ensures matched == (old(peers)[p].queue != [] && ack == Wire(old(peers)[p].queue[0].n))
      ensures View() == if matched then AckStep(old(View()), p, alloc) else old(View())
    {
      var peer := peers[p];
      if peer.queue == [] || ack != Wire(peer.queue[0].n) {
        return false;
      }
      Dequeue(p);
      ResumeFrame(View());
      MulticastResume();
      if peer.link == Pending && peer.queue[0].n == peer.init {
        ComeUp(p);
      } else {
        SendHead(p, alloc);
      }
      return true;
    }

    /** The UP transition of `eigrp_nbr_state_update_reason`, and the sequence
        that `eigrp_update_send_EOT` reserves. */
    method ComeUp(p: PeerId)
      requires Valid() && p in peers && LiveState(CameUp(View(), p))
      modifies this`epoch, this`next, this`peers
      ensures Valid() && View() == CameUp(old(View()), p)
    {
      ghost var t := CameUp(View(), p);
      epoch := epoch + 1;
      peers := peers[p := peers[p].(link := Up, epoch := epoch, init := 0, held := Some(next))];
      next := next + 1;
      assert View() == t;
    }

    method UpdateHead(p: PeerId, head: Entry)
      requires Valid() && HasHead(View(), p) && head.n == peers[p].queue[0].n
      modifies this`peers
      ensures Valid() && View() == WithHead(old(View()), p, head)
    {
      LiveHead(View(), p, head);
      peers := peers[p := peers[p].(queue := peers[p].queue[0 := head])];
    }

    method OfferHead(p: PeerId, retrans: bool)
      requires Valid() && HasHead(View(), p)
      modifies this`peers, this`obuf, this`onWriteQ
      ensures Valid() && View() == Offer(old(View()), p, retrans)
    {
      LiveOffer(View(), p, retrans);
      var peer := peers[p];
      peers := peers[p := peer.(offers := peer.offers + [peer.queue[0].n])];
      obuf := obuf + [Image(peer.queue[0].n, ToPeer(p), retrans)];
      onWriteQ := true;
    }

    /** `eigrp_packet_unack_retrans`; at the retry limit the neighbor is torn
        down and deleted. */
    method UnackRetrans(p: PeerId, alloc: bool)
      requires Valid() && HasHead(View(), p)
      modifies this
      ensures Valid() && View() == TimerStep(old(View()), p, alloc)
    {
      var head := peers[p].queue[0].(timer := false);
      if head.retryQueued {
        UpdateHead(p, head);
      } else if head.retries >= RETRANS_MAX {
        UpdateHead(p, head);
        NeighborDown(p, true);
        ResumeFrame(old(View()));
        NeighborDelete(p);
      } else if alloc {
        UpdateHead(p, head.(retryQueued := true));
        OfferHead(p, head.sent);
      } else {
        UpdateHead(p, head.(timer := true));
      }
    }

    /** The reliable part of `eigrp_packet_wire_send` and the dequeue after it. */
    method WriteOne(ok: bool)
      requires Valid() && obuf != []
      modifies this
      ensures Valid() && View() == WireStep(old(View()), ok)
      ensures nbrs == old(nbrs)
    {
      LiveWire(View(), ok);
      ghost var t := WireStep(View(), ok);
      var image := obuf[0];
      peers := SendUpdates(nbrs, peers, image, ok, next);
      Sent(image, ok);
      assert View() == t;
    }

    /** The image leaves the output queue, and the interface the write queue
        when nothing is left. */
    method Sent(image: Image, ok: bool)
      requires obuf != []
      modifies this`obuf, this`wire, this`onWriteQ
      ensures obuf == old(obuf)[1..] && wire == (if ok then old(wire) + [image] else old(wire))
      ensures onWriteQ == (old(onWriteQ) && (|old(obuf)| > 1 || pending != []))
    {
      obuf := obuf[1..];
      if ok {
        wire := wire + [image];
      }
      if obuf == [] && pending == [] {
        onWriteQ := false;
      }
    }

    // ----- the adjacency -----

    method NeighborCreate(p: PeerId)
      requires Valid() && p !in peers
      modifies this`nbrs, this`peers
      ensures Valid() && View() == old(View()).(peers := old(peers)[p := NEW_PEER])
    {
      nbrs := nbrs + [p];
      peers := peers[p := NEW_PEER];
    }

    /** The list node of a neighbor is unlinked. */
    method NeighborDelete(p: PeerId)
      requires Valid() && p in peers
      modifies this`nbrs, this`peers
      ensures Valid() && View() == old(View()).(peers := old(peers) - {p})
    {
      var at := 0;
      while nbrs[at] != p
        invariant at < |nbrs| && p in nbrs[at..]
        decreases |nbrs| - at
      {
        assert nbrs[at..] == [nbrs[at]] + nbrs[at + 1..];
        at := at + 1;
      }
      WithoutOne(nbrs, peers, at);
      nbrs := nbrs[..at] + nbrs[at + 1..];
      peers := peers - {p};
    }

    /** A packet built and queued in one go. */
    method FlushReliable(p: PeerId, alloc: bool)
      requires Valid() && p in peers && LiveState(Reserved(View()))
      modifies this`next, this`peers, this`obuf, this`onWriteQ
      ensures Valid() && View() == FlushStep(old(View()), p, alloc)
    {
      var n := next;
      Reserve();
      LinkReliable(p, n, alloc);
    }

    /** `eigrp_update_send_init`: the packet is linked, then the neighbor is
        PENDING. */
    method SendInitPacket(p: PeerId, alloc: bool)
      requires Valid() && p in peers && peers[p].link == Down && LiveState(Reserved(View()))
      modifies this`next, this`peers, this`obuf, this`onWriteQ
      ensures Valid() && View() == Started(FlushStep(old(View()), p, alloc), p, old(next))
    {
      var n := next;
      FlushReliable(p, alloc);
      Start(p, n);
    }

    method Start(p: PeerId, n: nat)
      requires Valid() && p in peers
      modifies this`peers
      ensures Valid() && View() == Started(old(View()), p, n)
    {
      ghost var t := Started(View(), p, n);
      LiveStarted(View(), p, n);
      peers := peers[p := peers[p].(link := Pending, init := n)];
      assert View() == t;
    }

    /** Start or end a partly built synchronization packet. */
    method Hold(p: PeerId, more: bool)
      requires Valid() && p in peers && LiveState(Reserved(View()))
      modifies this`next, this`peers
      ensures Valid() && View() == WithHeld(old(View()), p, more)
    {
      ghost var s := View();
      if more {
        peers := peers[p := peers[p].(held := Some(next))];
        next := next + 1;
      } else {
        peers := peers[p := peers[p].(held := None)];
      }
      LiveHeld(s, p, more);
      assert View() == WithHeld(s, p, more);
    }

    method ReleaseHeld(p: PeerId, more: bool, alloc: bool)
      requires Valid() && p in peers && peers[p].held.Some? && LiveState(Reserved(View()))
      modifies this`next, this`peers, this`obuf, this`onWriteQ
      ensures Valid() && View() == SyncStep(old(View()), p, more, alloc)
    {
      var n := peers[p].held.value;
      Hold(p, more);
      LinkReliable(p, n, alloc);
    }

    /** `eigrp_packet_multicast_retry` */
    method MulticastRetry()
      requires Valid()
      modifies this`retryTimer, this`backoff, this`waiting, this`onWriteQ
      ensures Valid() && View() == Resume(old(View()).(retryTimer := false))
    {
      retryTimer := false;
      MulticastResume();
    }

    method InterfaceDownAll()
      requires Valid()
      modifies this
      ensures Valid() && View() == Cleared(old(View()))
    {
      ghost var t := Cleared(View());
      nbrs, peers, pending, obuf := [], map[], [], [];
      backoff, waiting, retryTimer, onWriteQ := false, false, false, false;
      assert View() == t;
    }

    // ----- every step -----

    /** The in-place code takes exactly the steps of the model, one after the
        other, as long as the next reservation leaves live numbers within half
        the space; so it keeps what every step keeps. */
    method Take(step: Step, ghost o: bool)
      requires Valid() && Enabled(View(), step) && LiveState(Reserved(View()))
      requires RtpInv(View(), o) && WakeInv(View()) && (o ==> InOrderStep(View(), step))
      modifies this
      ensures Valid() && View() == Next(old(View()), step)
      ensures RtpInv(View(), o) && WakeInv(View())
      ensures forall p: PeerId :: RtpDelivery.StepLaw(old(View()), step, View(), p)
      ensures forall p: PeerId :: RtpOutput.WorkLaw(old(View()), step, View(), p)
    {
      BaseLayer(View(), o);
      forall p: PeerId
        ensures RtpDelivery.StepLaw(View(), step, Next(View(), step), p)
        ensures RtpOutput.WorkLaw(View(), step, Next(View(), step), p)
      {
        RtpDelivery.StepIsLawful(View(), step, p);
        RtpOutput.StepWorks(View(), step, p);
      }
      StepKeepsInv(View(), step, o);
      StepKeepsWake(View(), step);
      if step.Admit? || step.McastRetry? || step.WireSend? || step.RetransTimer? {
        TakeOutput(step);
      } else if step.NewPeer? || step.SendInit? || step.Ack? || step.PeerDown? || step.InterfaceDown? {
        TakeLink(step);
      } else {
        TakeFlush(step);
      }
    }

    method TakeOutput(step: Step)
      requires Valid() && Enabled(View(), step)
      requires step.Admit? || step.McastRetry? || step.WireSend? || step.RetransTimer?
      modifies this
      ensures Valid() && View() == Next(old(View()), step)
    {
      match step
      case Admit(fits, alloc) => MulticastAdmit(fits, alloc);
      case McastRetry => MulticastRetry();
      case WireSend(ok) => WriteOne(ok);
      case RetransTimer(p, alloc) => UnackRetrans(p, alloc);
    }

    method TakeFlush(step: Step)
      requires Valid() && Enabled(View(), step) && LiveState(Reserved(View()))
      requires PendingOk(View())
      requires step.ReserveElsewhere? || step.FlushUnicast? || step.HoldSync? || step.FlushSync? || step.FlushMulticast?
      modifies this
      ensures Valid() && View() == Next(old(View()), step)
    {
      match step
      case ReserveElsewhere => Reserve();
      case FlushUnicast(p, alloc) => FlushReliable(p, alloc);
      case HoldSync(p) => Hold(p, true);
      case FlushSync(p, more, alloc) => ReleaseHeld(p, more, alloc);
      case FlushMulticast =>
        LiveMulticast(View());
        MulticastReliableEnqueue();
    }

    method Reserve()
      requires Valid() && LiveState(Reserved(View()))
      modifies this`next
      ensures Valid() && View() == Reserved(old(View()))
    {
      next := next + 1;
    }

    method TakeLink(step: Step)
      requires Valid() && Enabled(View(), step) && LiveState(Reserved(View()))
      requires step.NewPeer? || step.SendInit? || step.Ack? || step.PeerDown? || step.InterfaceDown?
      modifies this
      ensures Valid() && View() == Next(old(View()), step)
    {
      match step
      case NewPeer(p) => NeighborCreate(p);
      case SendInit(p, alloc) => SendInitPacket(p, alloc);
      case Ack(p, alloc) => TakeAck(p, alloc);
      case PeerDown(p, purge, delete) => TakeDown(p, purge, delete);
      case InterfaceDown => InterfaceDownAll();
    }

    method TakeAck(p: PeerId, alloc: bool)
      requires Valid() && HasHead(View(), p) && LiveState(Reserved(View()))
      modifies this
      ensures Valid() && View() == AckStep(old(View()), p, alloc)
    {
      LiveUp(View(), p);
      var _ := PacketAck(p, Wire(peers[p].queue[0].n), alloc);
    }

    method TakeDown(p: PeerId, purge: bool, delete: bool)
      requires Valid() && p in peers
      modifies this
      ensures Valid() && View() == DownStep(old(View()), p, purge, delete)
    {
      NeighborDown(p, purge);
      if delete {
        NeighborDelete(p);
      }
    }
  }

  lemma BaseLayer(s: Rtp, o: bool)
    requires RtpInv(s, o)
    ensures RtpInv(s, false)
  {
    forall p | p in s.peers ensures PeerOk(p, s.peers[p], s, false) {
      assert PeerOk(p, s.peers[p], s, o);
    }
  }

  lemma WithoutOne(nbrs: seq<PeerId>, peers: map<PeerId, Peer>, at: nat)
    requires NbrsOk(nbrs, peers) && at < |nbrs|
    ensures NbrsOk(nbrs[..at] + nbrs[at + 1..], peers - {nbrs[at]})
  {
    var rest := nbrs[..at] + nbrs[at + 1..];
    assert nbrs == nbrs[..at] + [nbrs[at]] + nbrs[at + 1..];
    assert forall i :: 0 <= i < |rest| ==> rest[i] == nbrs[if i < at then i else i + 1];
  }

  lemma LiveHeld(s: Rtp, p: PeerId, more: bool)
    requires LiveState(s) && LiveState(Reserved(s)) && p in s.peers
    ensures LiveState(WithHeld(s, p, more))
  {
    var t := WithHeld(s, p, more);
    assert LiveQueue(s.peers[p].queue, s.next) && LiveQueue(s.peers[p].queue, s.next + 1);
  }

  lemma LiveStarted(s: Rtp, p: PeerId, n: nat)
    requires LiveState(s) && p in s.peers
    ensures LiveState(Started(s, p, n))
  {
    assert LiveQueue(s.peers[p].queue, s.next);
  }

  lemma LiveMulticast(s: Rtp)
    requires PendingOk(s) && LiveState(Reserved(s))
    ensures LiveState(WithMulticast(s))
  {
    var t := WithMulticast(s);
    forall i | 0 <= i < |t.pending| ensures Live(t.pending[i].n, t.next) {
      assert i < |s.pending| ==> Live(s.pending[i].n, s.next + 1);
    }
  }

  lemma LiveDequeueNext(s: Rtp, p: PeerId)
    requires LiveState(Reserved(s)) && HasHead(s, p)
    ensures LiveState(Reserved(Dequeued(s, p)))
  {
    var head := s.peers[p].queue[0];
    var s1 := if head.retryQueued then DropOutput(s, p, head.n, true) else s;
    DropKeeps(s.obuf, p, head.n, true);
    assert LiveState(Reserved(s1));
    LiveUnlinkNext(s1, p);
  }

  lemma LiveUnlinkNext(s: Rtp, p: PeerId)
    requires LiveState(Reserved(s)) && HasHead(s, p)
    ensures LiveState(Reserved(s.(peers := s.peers[p := s.peers[p].(queue := s.peers[p].queue[1..])])))
  {
    assert LiveQueue(s.peers[p].queue, s.next + 1);
    assert LiveQueue(s.peers[p].queue[1..], s.next + 1);
  }

  /** A peer that comes up needs one more reservation. */
  lemma LiveUp(s: Rtp, p: PeerId)
    requires LiveState(Reserved(s)) && LiveState(s) && HasHead(s, p)
    ensures LiveState(CameUp(Resume(Dequeued(s, p)), p))
  {
    LiveDequeueNext(s, p);
    var d := Dequeued(s, p);
    ResumeFrame(d);
    assert Reserved(Resume(d)) == Resume(Reserved(d)) by { ResumeReserved(d); }
    LiveResume(Reserved(d));
    LiveCameUp(Resume(d), p);
  }

  /** A wake-up looks at no counter. */
  lemma ResumeReserved(s: Rtp)
    ensures Reserved(Resume(s)) == Resume(Reserved(s))
  {
    var t := Reserved(s);
    assert forall p, m :: Receives(t, m, p) == Receives(s, m, p);
    assert forall p, m :: BusyFor(t, m, p) == BusyFor(s, m, p);
    assert forall p, m :: ReadyFor(t, m, p) == ReadyFor(s, m, p);
    assert forall m :: AnyReceives(t, m) == AnyReceives(s, m);
    assert forall m :: AnyBusy(t, m) == AnyBusy(s, m);
    assert forall m :: AnyReady(t, m) == AnyReady(s, m);
  }

  lemma LiveCameUp(s: Rtp, p: PeerId)
    requires LiveState(Reserved(s)) && p in s.peers && s.next >= 1
    ensures LiveState(CameUp(s, p))
  {
    assert LiveQueue(s.peers[p].queue, s.next + 1);
  }
}
