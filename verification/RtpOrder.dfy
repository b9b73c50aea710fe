/**
 What every step of the reliable transport keeps. The invariant has two layers:
 the base layer (distinct indices, only heads worked on, everything released to
 a peer older than every multicast still owed to it) is kept by every step; the
 order layer on top (queues in reservation order, offers never going back) by
 every step but the late release of a held packet. The parameter `o` of the
 lemmas says whether the order layer is included.
 */
module RtpOrder {
  import opened Common
  import opened RtpModel

  ghost predicate Distinct(q: seq<Entry>) {
    forall i, j :: 0 <= i < j < |q| ==> q[i].n != q[j].n
  }

  ghost predicate Ordered(q: seq<Entry>) {
    forall i, j :: 0 <= i < j < |q| ==> q[i].n < q[j].n
  }

  ghost predicate NonDecreasing(a: seq<nat>) {
    forall i, j :: 0 <= i < j < |a| ==> a[i] <= a[j]
  }

  function Latest(offers: seq<nat>): nat {
    if offers == [] then 0 else offers[|offers| - 1]
  }

  /** Offers go up, and everything still queued comes after the last offer. */
  ghost predicate Delivers(peer: Peer) {
    && Ordered(peer.queue)
    && NonDecreasing(peer.offers)
    && (forall i :: 0 <= i < |peer.queue| ==> Latest(peer.offers) <= peer.queue[i].n)
  }

  /** Only the head of a queue has been worked on; a DOWN peer has no packets
      and a PENDING one at most its INIT. */
  ghost predicate QueueOk(peer: Peer, next: nat, epoch: nat) {
    && (forall i :: 0 <= i < |peer.queue| ==> 1 <= peer.queue[i].n < next)
    && (forall i :: 0 < i < |peer.queue| ==> peer.queue[i] == Fresh(peer.queue[i].n))
    && Distinct(peer.queue)
    && peer.epoch <= epoch
    && (peer.link == Up ==> peer.epoch != 0)
    && (peer.link == Down ==> peer.queue == [] && peer.held == None)
    && (peer.link == Pending ==> |peer.queue| <= 1 && peer.held == None)
  }

  /** A held synchronization packet has a reserved index nobody else carries. */
  ghost predicate HeldOk(peer: Peer, pending: seq<Mcast>, next: nat) {
    peer.held.Some? ==>
      && 1 <= peer.held.value < next
      && (forall i :: 0 <= i < |peer.queue| ==> peer.queue[i].n != peer.held.value)
      && (forall i :: 0 <= i < |pending| ==> pending[i].n != peer.held.value)
  }

  /** Everything of p that is in the output queue is older than n. */
  ghost predicate ImagesBefore(obuf: seq<Image>, p: PeerId, n: nat) {
    forall image :: image in obuf && Reaches(image, p) ==> image.n < n
  }

  /** A multicast still owed to a peer is later than everything released to it. */
  ghost predicate Unclaimed(p: PeerId, peer: Peer, m: Mcast, obuf: seq<Image>) {
    Eligible(peer, m.epoch) ==>
      && (forall i :: 0 <= i < |peer.queue| ==> peer.queue[i].n != m.n)
      && (peer.queue != [] && peer.queue[0] != Fresh(peer.queue[0].n) ==> peer.queue[0].n < m.n)
      && ImagesBefore(obuf, p, m.n)
  }

  ghost predicate Owed(p: PeerId, peer: Peer, pending: seq<Mcast>, obuf: seq<Image>) {
    forall i :: 0 <= i < |pending| ==> Unclaimed(p, peer, pending[i], obuf)
  }

  /** The order layer: offers go up, and what is queued, held or owed was not
      offered yet. */
  ghost predicate InOrder(peer: Peer, s: Rtp) {
    && Delivers(peer)
    && Latest(peer.offers) < s.next
    && (peer.link == Down ==> peer.offers == [])
    && (peer.held.Some? ==> peer.held.value != Latest(peer.offers))
    && (forall i :: 0 <= i < |s.pending| && Eligible(peer, s.pending[i].epoch) ==> Latest(peer.offers) < s.pending[i].n)
  }

  ghost predicate PeerOk(p: PeerId, peer: Peer, s: Rtp, o: bool) {
    && QueueOk(peer, s.next, s.epoch)
    && HeldOk(peer, s.pending, s.next)
    && Owed(p, peer, s.pending, s.obuf)
    && (o ==> InOrder(peer, s))
  }

  /** Pending multicasts are queued in reservation order, each reserved and
      stamped with an epoch already handed out. */
  ghost predicate PendingOk(s: Rtp) {
    && (forall i, j :: 0 <= i < j < |s.pending| ==> s.pending[i].n < s.pending[j].n)
    && (forall i :: 0 <= i < |s.pending| ==> 1 <= s.pending[i].n < s.next && s.pending[i].epoch <= s.epoch)
    && (forall image :: image in s.obuf ==> image.n < s.next && (image.retrans ==> image.to.ToPeer?))
    && s.next >= 1
  }

  ghost predicate RtpInv(s: Rtp, o: bool) {
    && PendingOk(s)
    && (forall p :: p in s.peers ==> PeerOk(p, s.peers[p], s, o))
  }

  /** The held packet is newer than everything queued for or offered to its peer. */
  ghost predicate SyncInOrder(peer: Peer) {
    peer.held.Some? ==> NewestFor(peer, peer.held.value)
  }

  /** The steps that keep the order: all but the late release of a held packet. */
  ghost predicate InOrderStep(s: Rtp, step: Step) {
    step.FlushSync? && step.p in s.peers ==> SyncInOrder(s.peers[step.p])
  }

  ghost predicate InOrderRun(s: Rtp, steps: seq<Step>)
    requires IsRun(s, steps)
    decreases |steps|
  {
    steps != [] ==> InOrderStep(s, steps[0]) && InOrderRun(Next(s, steps[0]), steps[1..])
  }

  // ----- queues -----

  /** All packets of a queue that are older than n, wherever they stand. */
  function Earlier(q: seq<Entry>, n: nat): nat {
    if q == [] then 0 else (if q[0].n < n then 1 else 0) + Earlier(q[1..], n)
  }

  /** In an ordered queue the walk with its early break has counted all earlier
      packets, which stand in front. */
  lemma {:induction false} PriorCountIsPrefix(q: seq<Entry>, n: nat)
    requires Ordered(q)
    ensures PriorCount(q, n) == Earlier(q, n) <= |q|
    ensures forall i :: 0 <= i < |q| ==> (q[i].n < n <==> i < PriorCount(q, n))
  {
    if q != [] {
      var r := q[1..];
      PriorCountIsPrefix(r, n);
      assert forall i :: 0 < i < |q| ==> q[i] == r[i - 1];
      assert r != [] ==> q[0].n < r[0].n;
      assert q[0].n >= n && r != [] ==> PriorCount(r, n) == 0;
    }
  }

  /** In any queue the packets counted are the front ones, and all are older. */
  lemma {:induction false} PriorCountFront(q: seq<Entry>, n: nat)
    ensures PriorCount(q, n) <= |q|
    ensures forall i :: 0 <= i < PriorCount(q, n) ==> q[i].n < n
    ensures PriorCount(q, n) < |q| ==> q[PriorCount(q, n)].n >= n
  {
    if q != [] && q[0].n < n {
      PriorCountFront(q[1..], n);
      assert forall i :: 0 < i < |q| ==> q[i] == q[1..][i - 1];
    }
  }

  /** The ordered insert puts the entry right after the packets counted. */
  lemma {:induction false} InsertAt(q: seq<Entry>, e: Entry)
    ensures PriorCount(q, e.n) <= |q|
    ensures Insert(q, e) == q[..PriorCount(q, e.n)] + [e] + q[PriorCount(q, e.n)..]
  {
    PriorCountFront(q, e.n);
    if q != [] {
      if q[0].n < e.n {
        InsertAt(q[1..], e);
        var k := PriorCount(q[1..], e.n);
        assert [q[0]] + q[1..][..k] == q[..k + 1];
        assert q[1..][k..] == q[k + 1..];
      } else {
        assert PriorCount(q, e.n) == 0;
      }
    }
  }

  /** An insert adds the new entry and changes nothing else. */
  lemma {:induction false} InsertAdds(q: seq<Entry>, e: Entry)
    ensures multiset(Insert(q, e)) == multiset(q) + multiset{e}
  {
    if q != [] && q[0].n < e.n {
      InsertAdds(q[1..], e);
      assert q == [q[0]] + q[1..];
    }
  }

  lemma InsertIndex(q: seq<Entry>, e: Entry)
    ensures |Insert(q, e)| == |q| + 1
    ensures var k := PriorCount(q, e.n);
            && k <= |q|
            && (forall i :: 0 <= i < k ==> q[i].n < e.n && Insert(q, e)[i] == q[i])
            && Insert(q, e)[k] == e
            && (forall i :: k < i <= |q| ==> Insert(q, e)[i] == q[i - 1])
  {
    InsertAt(q, e);
    PriorCountFront(q, e.n);
    var k, r := PriorCount(q, e.n), Insert(q, e);
    assert |r| == |q| + 1;
    forall i | k < i <= |q| ensures r[i] == q[i - 1] {
      assert q[k..][i - 1 - k] == q[i - 1];
    }
  }

  lemma InsertKeepsDistinct(q: seq<Entry>, e: Entry)
    requires Distinct(q) && forall i :: 0 <= i < |q| ==> q[i].n != e.n
    ensures Distinct(Insert(q, e))
  {
    InsertIndex(q, e);
  }

  lemma InsertKeepsOrder(q: seq<Entry>, e: Entry)
    requires Ordered(q) && forall i :: 0 <= i < |q| ==> q[i].n != e.n
    ensures Ordered(Insert(q, e))
  {
    InsertIndex(q, e);
    PriorCountIsPrefix(q, e.n);
  }

  // ----- one peer -----

  lemma NotBehind(pending: seq<Mcast>, peer: Peer, n: nat, i: nat)
    requires i < |pending| && !Behind(pending, peer, n) && Eligible(peer, pending[i].epoch)
    ensures pending[i].n >= n
  {}

  /** A peer is undisturbed by a step that leaves it alone, adds no multicast
      and no image for it, and only moves the counters forward. */
  lemma PeerFrame(p: PeerId, peer: Peer, s: Rtp, t: Rtp, o: bool)
    requires PeerOk(p, peer, s, o)
    requires t.next >= s.next && t.epoch >= s.epoch
    requires t.pending == s.pending || (s.pending != [] && t.pending == s.pending[1..])
    requires forall image :: image in t.obuf && Reaches(image, p) ==> image in s.obuf
    ensures PeerOk(p, peer, t, o)
  {
    forall i | 0 <= i < |t.pending| ensures Unclaimed(p, peer, t.pending[i], t.obuf) {
      var k := if t.pending == s.pending then i else i + 1;
      assert Unclaimed(p, peer, s.pending[k], s.obuf);
    }
  }

  /** Offering the head is in order when no earlier multicast is owed. */
  lemma OfferOk(p: PeerId, peer: Peer, s: Rtp, retrans: bool, o: bool)
    requires PeerOk(p, peer, s, o) && peer.queue != [] && peer.link != Down
    requires !Behind(s.pending, peer, peer.queue[0].n)
    ensures PeerOk(p, peer.(offers := peer.offers + [peer.queue[0].n]),
                   s.(obuf := s.obuf + [Image(peer.queue[0].n, ToPeer(p), retrans)]), o)
  {
    var n := peer.queue[0].n;
    var peer' := peer.(offers := peer.offers + [n]);
    var obuf := s.obuf + [Image(n, ToPeer(p), retrans)];
    forall i | 0 <= i < |s.pending| ensures Unclaimed(p, peer', s.pending[i], obuf) {
      assert Unclaimed(p, peer, s.pending[i], s.obuf);
      if Eligible(peer, s.pending[i].epoch) {
        NotBehind(s.pending, peer, n, i);
      }
    }
  }

  /** Changing only the flags of a head that is not behind any multicast. */
  lemma HeadOk(p: PeerId, peer: Peer, s: Rtp, e: Entry, o: bool)
    requires PeerOk(p, peer, s, o) && peer.queue != [] && e.n == peer.queue[0].n
    requires !Behind(s.pending, peer, e.n)
    ensures PeerOk(p, peer.(queue := peer.queue[0 := e]), s, o)
  {
    var peer' := peer.(queue := peer.queue[0 := e]);
    forall i | 0 <= i < |s.pending| ensures Unclaimed(p, peer', s.pending[i], s.obuf) {
      assert Unclaimed(p, peer, s.pending[i], s.obuf);
      if Eligible(peer, s.pending[i].epoch) {
        NotBehind(s.pending, peer, e.n, i);
      }
    }
  }

  /** A head that has been worked on is behind no multicast. */
  lemma WorkedHeadNotBehind(p: PeerId, peer: Peer, s: Rtp, o: bool)
    requires PeerOk(p, peer, s, o) && peer.queue != [] && peer.queue[0] != Fresh(peer.queue[0].n)
    ensures !Behind(s.pending, peer, peer.queue[0].n)
  {
    forall i | 0 <= i < |s.pending| && Eligible(peer, s.pending[i].epoch)
      ensures s.pending[i].n > peer.queue[0].n
    {
      assert Unclaimed(p, peer, s.pending[i], s.obuf);
    }
  }

  lemma AppendInOrder(peer: Peer, s: Rtp, n: nat)
    requires InOrder(peer, s) && n < s.next && peer.link == Up && NewestFor(peer, n)
    ensures InOrder(peer.(queue := peer.queue + [Fresh(n)]), s)
  {
    assert peer.queue != [] ==> peer.queue[|peer.queue| - 1].n < n;
  }

  lemma AppendOk(p: PeerId, peer: Peer, s: Rtp, n: nat, o: bool)
    requires PeerOk(p, peer, s, o) && peer.link == Up
    requires 1 <= n < s.next && peer.held != Some(n)
    requires forall i :: 0 <= i < |peer.queue| ==> peer.queue[i].n != n
    requires forall i :: 0 <= i < |s.pending| ==> s.pending[i].n != n
    requires o ==> NewestFor(peer, n)
    ensures PeerOk(p, peer.(queue := peer.queue + [Fresh(n)]), s, o)
  {
    var peer' := peer.(queue := peer.queue + [Fresh(n)]);
    if o { AppendInOrder(peer, s, n); }
    forall i | 0 <= i < |s.pending| ensures Unclaimed(p, peer', s.pending[i], s.obuf) {
      assert Unclaimed(p, peer, s.pending[i], s.obuf);
    }
  }

  lemma DequeueOk(p: PeerId, peer: Peer, s: Rtp, o: bool)
    requires PeerOk(p, peer, s, o) && peer.queue != []
    ensures PeerOk(p, peer.(queue := peer.queue[1..]), s, o)
  {
    var peer' := peer.(queue := peer.queue[1..]);
    forall i | 0 <= i < |s.pending| ensures Unclaimed(p, peer', s.pending[i], s.obuf) {
      assert Unclaimed(p, peer, s.pending[i], s.obuf);
    }
  }

  lemma CopyDelivers(p: PeerId, peer: Peer, s: Rtp)
    requires PeerOk(p, peer, s, true) && s.pending != [] && Eligible(peer, s.pending[0].epoch)
    ensures Delivers(WithCopy(peer, s.pending[0].n))
  {
    var n := s.pending[0].n;
    assert Unclaimed(p, peer, s.pending[0], s.obuf);
    InsertKeepsOrder(peer.queue, Fresh(n));
    InsertIndex(peer.queue, Fresh(n));
    PriorCountIsPrefix(peer.queue, n);
  }

  /** An eligible peer takes the oldest pending multicast in order. */
  lemma CopyInOrder(p: PeerId, peer: Peer, s: Rtp)
    requires PendingOk(s)
    requires PeerOk(p, peer, s, true) && s.pending != [] && Eligible(peer, s.pending[0].epoch)
    ensures InOrder(WithCopy(peer, s.pending[0].n), s.(pending := s.pending[1..]))
  {
    CopyDelivers(p, peer, s);
    assert HeldOk(peer, s.pending, s.next);
    assert s.pending[0].n < s.next;
  }

  lemma CopyQueued(p: PeerId, peer: Peer, s: Rtp, o: bool)
    requires PendingOk(s)
    requires PeerOk(p, peer, s, o) && s.pending != [] && Eligible(peer, s.pending[0].epoch)
    ensures QueueOk(WithCopy(peer, s.pending[0].n), s.next, s.epoch)
  {
    var n := s.pending[0].n;
    assert Unclaimed(p, peer, s.pending[0], s.obuf);
    InsertIndex(peer.queue, Fresh(n));
    InsertKeepsDistinct(peer.queue, Fresh(n));
    var k, r := PriorCount(peer.queue, n), Insert(peer.queue, Fresh(n));
    forall i | 0 < i < |r| ensures r[i] == Fresh(r[i].n) {
      if i > k {
        assert peer.queue[i - 1] == Fresh(peer.queue[i - 1].n);
      }
    }
    forall i | 0 <= i < |r| ensures 1 <= r[i].n < s.next {
      assert i > k ==> 1 <= peer.queue[i - 1].n < s.next;
    }
  }

  lemma CopyHeld(p: PeerId, peer: Peer, s: Rtp, o: bool)
    requires PeerOk(p, peer, s, o) && s.pending != [] && Eligible(peer, s.pending[0].epoch)
    ensures HeldOk(WithCopy(peer, s.pending[0].n), s.pending[1..], s.next)
  {
    InsertAt(peer.queue, Fresh(s.pending[0].n));
  }

  lemma CopyOwed(p: PeerId, peer: Peer, s: Rtp, o: bool)
    requires PendingOk(s)
    requires PeerOk(p, peer, s, o) && s.pending != []
    ensures var peer' := if Eligible(peer, s.pending[0].epoch) then WithCopy(peer, s.pending[0].n) else peer;
            Owed(p, peer', s.pending[1..], s.obuf + [Image(s.pending[0].n, ToAll, false)])
  {
    var n := s.pending[0].n;
    var copied := Eligible(peer, s.pending[0].epoch);
    var peer' := if copied then WithCopy(peer, n) else peer;
    assert Unclaimed(p, peer, s.pending[0], s.obuf);
    InsertIndex(peer.queue, Fresh(n));
    forall i | 0 <= i < |s.pending| - 1
      ensures Unclaimed(p, peer', s.pending[1..][i], s.obuf + [Image(n, ToAll, false)])
    {
      assert Unclaimed(p, peer, s.pending[i + 1], s.obuf);
    }
  }

  lemma EffectOk(p: PeerId, peer: Peer, s: Rtp, ok: bool, o: bool)
    requires PeerOk(p, peer, s, o) && s.obuf != [] && Reaches(s.obuf[0], p)
    ensures PeerOk(p, SendEffect(peer, s.obuf[0], ok), s, o)
  {
    var peer' := SendEffect(peer, s.obuf[0], ok);
    forall i | 0 <= i < |s.pending| ensures Unclaimed(p, peer', s.pending[i], s.obuf) {
      assert Unclaimed(p, peer, s.pending[i], s.obuf);
      assert s.obuf[0] in s.obuf;
    }
  }

  /** A peer that comes up gets an epoch no pending multicast carries, so it is
      owed none of the multicasts encoded before it was up. */
  lemma UpOk(p: PeerId, peer: Peer, s: Rtp, o: bool)
    requires PendingOk(s) && PeerOk(p, peer, s, o) && peer.queue == []
    ensures PeerOk(p, peer.(link := Up, epoch := s.epoch + 1, init := 0, held := Some(s.next)),
                   s.(epoch := s.epoch + 1, next := s.next + 1), o)
  {}

  // ----- the whole state -----

  lemma ResumeFrame(s: Rtp)
    ensures var r := Resume(s);
            r == s.(backoff := r.backoff, waiting := r.waiting, onWriteQ := r.onWriteQ)
  {}

  lemma OrderResume(s: Rtp, o: bool)
    requires RtpInv(s, o)
    ensures RtpInv(Resume(s), o)
  {
    ResumeFrame(s);
    OrderFrame(s, Resume(s), o);
  }

  /** Nothing but counters, flags and removals from the output queue. */
  lemma OrderFrame(s: Rtp, t: Rtp, o: bool)
    requires RtpInv(s, o) && t.next >= s.next && t.epoch >= s.epoch
    requires forall p :: p in t.peers ==> p in s.peers && t.peers[p] == s.peers[p]
    requires t.pending == s.pending || (s.pending != [] && t.pending == s.pending[1..])
    requires forall image :: image in t.obuf ==> image in s.obuf
    ensures RtpInv(t, o)
  {
    forall p | p in t.peers ensures PeerOk(p, t.peers[p], t, o) {
      PeerFrame(p, s.peers[p], s, t, o);
    }
  }

  /** The peers other than p keep their invariant when only p is touched. */
  lemma OrderOne(s: Rtp, t: Rtp, p: PeerId, o: bool)
    requires RtpInv(s, o) && p in t.peers && PeerOk(p, t.peers[p], t, o)
    requires t.peers == s.peers[p := t.peers[p]]
    requires t.next >= s.next && t.epoch >= s.epoch && t.pending == s.pending
    requires t.obuf == s.obuf || exists n: nat, retrans :: n < t.next && t.obuf == s.obuf + [Image(n, ToPeer(p), retrans)]
    ensures RtpInv(t, o)
  {
    forall q | q in t.peers ensures PeerOk(q, t.peers[q], t, o) {
      if q != p { PeerFrame(q, s.peers[q], s, t, o); }
    }
  }

  lemma {:induction false} DropKeeps(obuf: seq<Image>, p: PeerId, n: nat, retriesOnly: bool)
    ensures forall image :: image in Drop(obuf, p, n, retriesOnly) ==> image in obuf
  {
    if obuf != [] {
      DropKeeps(obuf[1..], p, n, retriesOnly);
    }
  }

  lemma OrderDrop(s: Rtp, p: PeerId, n: nat, retriesOnly: bool, o: bool)
    requires RtpInv(s, o)
    ensures RtpInv(DropOutput(s, p, n, retriesOnly), o)
  {
    DropKeeps(s.obuf, p, n, retriesOnly);
    OrderFrame(s, DropOutput(s, p, n, retriesOnly), o);
  }

  lemma OrderOffer(s: Rtp, p: PeerId, retrans: bool, o: bool)
    requires RtpInv(s, o) && HasHead(s, p)
    requires !Behind(s.pending, s.peers[p], s.peers[p].queue[0].n)
    ensures RtpInv(Offer(s, p, retrans), o)
  {
    var t := Offer(s, p, retrans);
    OfferOk(p, s.peers[p], s, retrans, o);
    PeerFrame(p, t.peers[p], s.(obuf := t.obuf), t, o);
    OrderOne(s, t, p, o);
  }

  lemma OrderHead(s: Rtp, p: PeerId, e: Entry, o: bool)
    requires RtpInv(s, o) && HasHead(s, p) && e.n == s.peers[p].queue[0].n
    requires !Behind(s.pending, s.peers[p], e.n)
    ensures RtpInv(WithHead(s, p, e), o)
  {
    var t := WithHead(s, p, e);
    HeadOk(p, s.peers[p], s, e, o);
    PeerFrame(p, t.peers[p], s, t, o);
    OrderOne(s, t, p, o);
  }

  lemma OrderSend(s: Rtp, p: PeerId, alloc: bool, o: bool)
    requires RtpInv(s, o) && p in s.peers
    ensures RtpInv(SendReliably(s, p, alloc), o)
  {
    var peer := s.peers[p];
    if peer.queue != [] && !Behind(s.pending, peer, peer.queue[0].n) {
      if alloc {
        OrderOffer(s, p, false, o);
      } else {
        OrderHead(s, p, peer.queue[0].(timer := true), o);
      }
    }
  }

  /** Index n is newer than everything queued for and offered to a peer. */
  ghost predicate NewestFor(peer: Peer, n: nat) {
    (peer.queue != [] ==> peer.queue[|peer.queue| - 1].n < n) && Latest(peer.offers) < n
  }

  /** Index n is reserved and carried by nothing of an UP peer. */
  ghost predicate NewFor(s: Rtp, p: PeerId, n: nat, o: bool) {
    && p in s.peers && s.peers[p].link == Up
    && 1 <= n < s.next && s.peers[p].held != Some(n)
    && (forall i :: 0 <= i < |s.peers[p].queue| ==> s.peers[p].queue[i].n != n)
    && (forall i :: 0 <= i < |s.pending| ==> s.pending[i].n != n)
    && (o ==> NewestFor(s.peers[p], n))
  }

  lemma OrderEnqueue(s: Rtp, p: PeerId, n: nat, alloc: bool, o: bool)
    requires RtpInv(s, o) && NewFor(s, p, n, o)
    ensures RtpInv(EnqueueUnicast(s, p, n, alloc), o)
  {
    var t := s.(peers := s.peers[p := s.peers[p].(queue := s.peers[p].queue + [Fresh(n)])]);
    AppendOk(p, s.peers[p], s, n, o);
    PeerFrame(p, t.peers[p], s, t, o);
    OrderOne(s, t, p, o);
    if s.peers[p].queue == [] {
      OrderSend(t, p, alloc, o);
    }
  }

  lemma CopyOk(p: PeerId, s: Rtp, o: bool)
    requires RtpInv(s, o) && s.pending != [] && p in s.peers
    ensures PeerOk(p, Admitted(s).peers[p], Admitted(s), o)
  {
    var peer, t := s.peers[p], Admitted(s);
    CopyOwed(p, peer, s, o);
    if Eligible(peer, s.pending[0].epoch) {
      if o { CopyInOrder(p, peer, s); }
      CopyQueued(p, peer, s, o);
      CopyHeld(p, peer, s, o);
    }
  }

  lemma OrderAdmitted(s: Rtp, o: bool)
    requires RtpInv(s, o) && s.pending != []
    ensures RtpInv(Admitted(s), o)
  {
    var t := Admitted(s);
    assert forall image :: image in t.obuf ==> image in s.obuf || image.n == s.pending[0].n;
    assert PendingOk(t);
    forall p | p in t.peers ensures PeerOk(p, t.peers[p], t, o) { CopyOk(p, s, o); }
  }

  lemma OrderAdmit(s: Rtp, fits: bool, alloc: bool, o: bool)
    requires RtpInv(s, o)
    ensures RtpInv(AdmitStep(s, fits, alloc), o)
  {
    match Judge(s, fits, alloc)
    case Go => OrderAdmitted(s, o);
    case Cancel =>
      OrderFrame(s, s.(pending := s.pending[1..]), o);
      OrderResume(s.(pending := s.pending[1..]), o);
    case _ => OrderFrame(s, AdmitStep(s, fits, alloc), o);
  }

  lemma OrderWire(s: Rtp, ok: bool, o: bool)
    requires RtpInv(s, o) && s.obuf != []
    ensures RtpInv(WireStep(s, ok), o)
  {
    var t := WireStep(s, ok);
    assert forall image :: image in t.obuf ==> image in s.obuf;
    forall p | p in t.peers ensures PeerOk(p, t.peers[p], t, o) {
      if Reaches(s.obuf[0], p) { EffectOk(p, s.peers[p], s, ok, o); }
      PeerFrame(p, t.peers[p], s, t, o);
    }
  }

  lemma OrderUnlink(s: Rtp, p: PeerId, o: bool)
    requires RtpInv(s, o) && HasHead(s, p)
    ensures RtpInv(s.(peers := s.peers[p := s.peers[p].(queue := s.peers[p].queue[1..])]), o)
  {
    var t := s.(peers := s.peers[p := s.peers[p].(queue := s.peers[p].queue[1..])]);
    DequeueOk(p, s.peers[p], s, o);
    PeerFrame(p, t.peers[p], s, t, o);
    OrderOne(s, t, p, o);
  }

  lemma OrderDequeue(s: Rtp, p: PeerId, o: bool)
    requires RtpInv(s, o) && HasHead(s, p)
    ensures RtpInv(Dequeued(s, p), o)
  {
    var head := s.peers[p].queue[0];
    if head.retryQueued {
      OrderDrop(s, p, head.n, true, o);
      OrderUnlink(DropOutput(s, p, head.n, true), p, o);
    } else {
      OrderUnlink(s, p, o);
    }
  }

  lemma OrderUp(s: Rtp, p: PeerId, o: bool)
    requires RtpInv(s, o) && p in s.peers && s.peers[p].queue == []
    ensures RtpInv(CameUp(s, p), o)
  {
    var t := CameUp(s, p);
    UpOk(p, s.peers[p], s, o);
    PeerFrame(p, t.peers[p], s.(epoch := s.epoch + 1, next := s.next + 1), t, o);
    OrderOne(s, t, p, o);
  }

  lemma OrderAck(s: Rtp, p: PeerId, alloc: bool, o: bool)
    requires RtpInv(s, o) && HasHead(s, p)
    ensures RtpInv(AckStep(s, p, alloc), o)
  {
    OrderDequeue(s, p, o);
    OrderResume(Dequeued(s, p), o);
    ResumeFrame(Dequeued(s, p));
    if s.peers[p].link == Pending && s.peers[p].queue[0].n == s.peers[p].init {
      assert PeerOk(p, s.peers[p], s, o);
      assert Dequeued(s, p).peers[p].queue == [];
      OrderUp(Resume(Dequeued(s, p)), p, o);
    } else {
      OrderSend(Resume(Dequeued(s, p)), p, alloc, o);
    }
  }

  lemma OrderLeft(s: Rtp, p: PeerId, o: bool)
    requires RtpInv(s, o) && p in s.peers
    ensures RtpInv(s.(peers := s.peers[p := WentDown(s.peers[p])]), o)
  {
    var t := s.(peers := s.peers[p := WentDown(s.peers[p])]);
    assert PeerOk(p, s.peers[p], s, o);
    assert PeerOk(p, t.peers[p], t, o);
    OrderOne(s, t, p, o);
  }

  lemma OrderDown(s: Rtp, p: PeerId, purge: bool, delete: bool, o: bool)
    requires RtpInv(s, o) && p in s.peers
    ensures RtpInv(DownStep(s, p, purge, delete), o)
  {
    var s1 := if purge then DropOutput(s, p, 0, false) else s;
    if purge { OrderDrop(s, p, 0, false, o); }
    var s2 := s1.(peers := s1.peers[p := WentDown(s1.peers[p])]);
    OrderLeft(s1, p, o);
    OrderResume(s2, o);
    if delete { OrderFrame(Resume(s2), DownStep(s, p, purge, delete), o); }
  }

  lemma OrderRetransmit(s: Rtp, p: PeerId, o: bool)
    requires RtpInv(s, o) && HasHead(s, p) && !Behind(s.pending, s.peers[p], s.peers[p].queue[0].n)
    ensures var head := s.peers[p].queue[0].(timer := false);
            RtpInv(Offer(WithHead(s, p, head.(retryQueued := true)), p, head.sent), o)
  {
    var head := s.peers[p].queue[0].(timer := false);
    OrderHead(s, p, head.(retryQueued := true), o);
    OrderOffer(WithHead(s, p, head.(retryQueued := true)), p, head.sent, o);
  }

  lemma OrderTimer(s: Rtp, p: PeerId, alloc: bool, o: bool)
    requires RtpInv(s, o) && HasHead(s, p) && s.peers[p].queue[0].timer
    ensures RtpInv(TimerStep(s, p, alloc), o)
  {
    WorkedHeadNotBehind(p, s.peers[p], s, o);
    var head := s.peers[p].queue[0].(timer := false);
    if head.retryQueued {
      OrderHead(s, p, head, o);
    } else if head.retries >= RETRANS_MAX {
      OrderHead(s, p, head, o);
      OrderDown(WithHead(s, p, head), p, true, true, o);
    } else if alloc {
      OrderRetransmit(s, p, o);
    } else {
      OrderHead(s, p, head.(timer := true), o);
    }
  }

  lemma InitOk(p: PeerId, peer: Peer, s: Rtp, o: bool)
    requires PendingOk(s) && PeerOk(p, peer, s, o) && peer.link == Down
    ensures PeerOk(p, peer.(queue := [Fresh(s.next)], link := Pending, init := s.next), s.(next := s.next + 1), o)
  {}

  /** PENDING with its INIT packet linked but not sent. */
  function WithInit(s: Rtp, p: PeerId): Rtp
    requires p in s.peers
  {
    s.(next := s.next + 1,
       peers := s.peers[p := s.peers[p].(queue := [Fresh(s.next)], link := Pending, init := s.next)])
  }

  /** A DOWN peer starts over with its INIT packet. */
  lemma OrderInit(s: Rtp, p: PeerId, alloc: bool, o: bool)
    requires RtpInv(s, o) && Enabled(s, SendInit(p, alloc))
    ensures RtpInv(Next(s, SendInit(p, alloc)), o)
  {
    var t := WithInit(s, p);
    InitOk(p, s.peers[p], s, o);
    PeerFrame(p, t.peers[p], s.(next := s.next + 1), t, o);
    OrderOne(s, t, p, o);
    OrderSend(t, p, alloc, o);
    InitIsSend(s, p, alloc);
  }

  /** Linking INIT before the state change is linking it after: a DOWN or
      PENDING peer is owed no multicast either way. */
  lemma InitIsSend(s: Rtp, p: PeerId, alloc: bool)
    requires Enabled(s, SendInit(p, alloc)) && s.peers[p].queue == []
    ensures Next(s, SendInit(p, alloc)) == SendReliably(WithInit(s, p), p, alloc)
  {
    var h := Fresh(s.next);
    assert s.peers[p].queue + [h] == [h];
    if alloc {
      assert Next(s, SendInit(p, alloc)).obuf == SendReliably(WithInit(s, p), p, alloc).obuf;
    } else {
      assert [h][0 := h.(timer := true)] == [h.(timer := true)];
    }
  }

  lemma MulticastOk(p: PeerId, peer: Peer, s: Rtp, o: bool)
    requires PendingOk(s) && PeerOk(p, peer, s, o)
    ensures PeerOk(p, peer, WithMulticast(s), o)
  {
    assert Unclaimed(p, peer, Mcast(s.next, s.epoch), s.obuf);
  }

  lemma MulticastPending(s: Rtp)
    requires PendingOk(s)
    ensures PendingOk(WithMulticast(s))
  {}

  lemma OrderMulticast(s: Rtp, o: bool)
    requires RtpInv(s, o)
    ensures RtpInv(Resume(WithMulticast(s)), o)
  {
    MulticastPending(s);
    forall p | p in s.peers ensures PeerOk(p, s.peers[p], WithMulticast(s), o) {
      MulticastOk(p, s.peers[p], s, o);
    }
    assert RtpInv(WithMulticast(s), o);
    OrderResume(WithMulticast(s), o);
  }

  lemma OrderReserve(s: Rtp, o: bool)
    requires RtpInv(s, o)
    ensures RtpInv(Reserved(s), o)
  {
    OrderFrame(s, Reserved(s), o);
  }

  lemma OrderRetry(s: Rtp, o: bool)
    requires RtpInv(s, o)
    ensures RtpInv(Resume(s.(retryTimer := false)), o)
  {
    OrderFrame(s, s.(retryTimer := false), o);
    OrderResume(s.(retryTimer := false), o);
  }

  lemma OrderInterfaceDown(s: Rtp, o: bool)
    requires RtpInv(s, o)
    ensures RtpInv(Next(s, InterfaceDown), o)
  {}

  lemma HeldIsNew(s: Rtp, p: PeerId, more: bool, o: bool)
    requires RtpInv(s, o) && p in s.peers && s.peers[p].link == Up
    requires s.peers[p].held.Some? && (o ==> SyncInOrder(s.peers[p]))
    ensures NewFor(WithHeld(s, p, more), p, s.peers[p].held.value, o)
  {
    assert PeerOk(p, s.peers[p], s, o);
  }

  lemma OrderSync(s: Rtp, p: PeerId, more: bool, alloc: bool, o: bool)
    requires RtpInv(s, o) && Enabled(s, FlushSync(p, more, alloc)) && (o ==> SyncInOrder(s.peers[p]))
    ensures RtpInv(Next(s, FlushSync(p, more, alloc)), o)
  {
    HeldIsNew(s, p, more, o);
    OrderHeld(s, p, more, o);
    OrderEnqueue(WithHeld(s, p, more), p, s.peers[p].held.value, alloc, o);
  }

  lemma OrderHeld(s: Rtp, p: PeerId, more: bool, o: bool)
    requires RtpInv(s, o) && p in s.peers && s.peers[p].link == Up
    ensures RtpInv(WithHeld(s, p, more), o)
  {
    var t := WithHeld(s, p, more);
    HoldOk(p, s.peers[p], s, t.peers[p].held, o);
    PeerFrame(p, t.peers[p], s.(next := t.next), t, o);
    OrderOne(s, t, p, o);
  }

  lemma HoldOk(p: PeerId, peer: Peer, s: Rtp, held: Option<nat>, o: bool)
    requires PendingOk(s) && PeerOk(p, peer, s, o) && peer.link == Up
    requires held == None || held == Some(s.next)
    ensures held == None ==> PeerOk(p, peer.(held := held), s, o)
    ensures PeerOk(p, peer.(held := held), s.(next := s.next + 1), o)
  {
    var peer' := peer.(held := held);
    forall i | 0 <= i < |s.pending| ensures Unclaimed(p, peer', s.pending[i], s.obuf) {
      assert Unclaimed(p, peer, s.pending[i], s.obuf);
    }
  }

  lemma OrderNew(s: Rtp, p: PeerId, o: bool)
    requires RtpInv(s, o) && p !in s.peers
    ensures RtpInv(Next(s, NewPeer(p)), o)
  {
    var t := Next(s, NewPeer(p));
    assert PeerOk(p, NEW_PEER, t, o);
    OrderOne(s, t, p, o);
  }

  /** A freshly reserved index is newer than all that a peer holds. */
  lemma ReservedIsNew(s: Rtp, p: PeerId, o: bool)
    requires RtpInv(s, o) && p in s.peers && s.peers[p].link == Up
    ensures NewFor(Reserved(s), p, s.next, o)
  {
    assert PeerOk(p, s.peers[p], s, o);
  }

  lemma OrderFlush(s: Rtp, p: PeerId, alloc: bool, o: bool)
    requires RtpInv(s, o) && p in s.peers && s.peers[p].link == Up
    ensures RtpInv(FlushStep(s, p, alloc), o)
  {
    ReservedIsNew(s, p, o);
    OrderReserve(s, o);
    OrderEnqueue(Reserved(s), p, s.next, alloc, o);
  }

  // ----- main results -----

  lemma OrderLinkStep(s: Rtp, step: Step, o: bool)
    requires RtpInv(s, o) && Enabled(s, step)
    requires step.NewPeer? || step.SendInit? || step.Ack? || step.PeerDown? || step.InterfaceDown?
    ensures RtpInv(Next(s, step), o)
  {
    match step
    case NewPeer(p) => OrderNew(s, p, o);
    case SendInit(p, alloc) => OrderInit(s, p, alloc, o);
    case Ack(p, alloc) => OrderAck(s, p, alloc, o);
    case PeerDown(p, purge, delete) => OrderDown(s, p, purge, delete, o);
    case InterfaceDown => OrderInterfaceDown(s, o);
  }

  lemma OrderFlushStep(s: Rtp, step: Step, o: bool)
    requires RtpInv(s, o) && Enabled(s, step) && (o ==> InOrderStep(s, step))
    requires step.ReserveElsewhere? || step.FlushUnicast? || step.HoldSync? || step.FlushSync? || step.FlushMulticast?
    ensures RtpInv(Next(s, step), o)
  {
    match step
    case ReserveElsewhere => OrderReserve(s, o);
    case FlushUnicast(p, alloc) => OrderFlush(s, p, alloc, o);
    case HoldSync(p) => OrderHeld(s, p, true, o);
    case FlushSync(p, more, alloc) => OrderSync(s, p, more, alloc, o);
    case FlushMulticast => OrderMulticast(s, o);
  }

  lemma OrderOutputStep(s: Rtp, step: Step, o: bool)
    requires RtpInv(s, o) && Enabled(s, step)
    requires step.Admit? || step.McastRetry? || step.WireSend? || step.RetransTimer?
    ensures RtpInv(Next(s, step), o)
  {
    match step
    case Admit(fits, alloc) => OrderAdmit(s, fits, alloc, o);
    case McastRetry => OrderRetry(s, o);
    case WireSend(ok) => OrderWire(s, ok, o);
    case RetransTimer(p, alloc) => OrderTimer(s, p, alloc, o);
  }

  /** Every step keeps the base layer, and every step but the late release of a
      held packet the order layer too. */
  lemma StepKeepsInv(s: Rtp, step: Step, o: bool)
    requires RtpInv(s, o) && Enabled(s, step) && (o ==> InOrderStep(s, step))
    ensures RtpInv(Next(s, step), o)
  {
    if step.Admit? || step.McastRetry? || step.WireSend? || step.RetransTimer? {
      OrderOutputStep(s, step, o);
    } else if step.NewPeer? || step.SendInit? || step.Ack? || step.PeerDown? || step.InterfaceDown? {
      OrderLinkStep(s, step, o);
    } else {
      OrderFlushStep(s, step, o);
    }
  }

  lemma {:induction false} RunKeepsInv(s: Rtp, steps: seq<Step>, o: bool)
    requires RtpInv(s, o) && IsRun(s, steps) && (o ==> InOrderRun(s, steps))
    ensures RtpInv(After(s, steps), o)
    decreases |steps|
  {
    if steps != [] {
      StepKeepsInv(s, steps[0], o);
      RunKeepsInv(Next(s, steps[0]), steps[1..], o);
    }
  }

  /** In-order first offers: on every run from the start in which held packets
      are released in order, the packets offered to each peer since it last left
      DOWN never go back, so first offers strictly increase. */
  lemma OffersIncrease(steps: seq<Step>, p: PeerId, i: nat, j: nat)
    requires IsRun(INITIAL, steps) && InOrderRun(INITIAL, steps)
    requires p in After(INITIAL, steps).peers
    requires i < j < |After(INITIAL, steps).peers[p].offers|
    ensures After(INITIAL, steps).peers[p].offers[i] <= After(INITIAL, steps).peers[p].offers[j]
  {
    RunKeepsInv(INITIAL, steps, true);
    assert PeerOk(p, After(INITIAL, steps).peers[p], After(INITIAL, steps), true);
  }

  lemma LateBehind(s: Rtp, p: PeerId, n: nat, alloc: bool)
    requires p in s.peers && s.peers[p].queue != [] && n < s.peers[p].queue[|s.peers[p].queue| - 1].n
    ensures !Delivers(EnqueueUnicast(s, p, n, alloc).peers[p])
  {
    var queue, queue' := s.peers[p].queue, EnqueueUnicast(s, p, n, alloc).peers[p].queue;
    var k := |queue| - 1;
    assert queue' == queue + [Fresh(n)];
    assert queue'[k].n > queue'[k + 1].n;
  }

  /** What overtook a held packet is last in the queue, or the latest offer. */
  lemma HeldIsLate(p: PeerId, peer: Peer, s: Rtp)
    requires PeerOk(p, peer, s, true) && peer.link == Up && !SyncInOrder(peer)
    ensures peer.held.Some?
    ensures peer.queue != [] ==> peer.held.value < peer.queue[|peer.queue| - 1].n
    ensures peer.queue == [] ==> peer.held.value < Latest(peer.offers)
  {}

  lemma LateRelease(s: Rtp, p: PeerId, more: bool, alloc: bool)
    requires p in s.peers && s.peers[p].link == Up && s.peers[p].held.Some?
    requires PeerOk(p, s.peers[p], s, true) && !SyncInOrder(s.peers[p])
    ensures !Delivers(SyncStep(s, p, more, alloc).peers[p])
  {
    var peer := s.peers[p];
    HeldIsLate(p, peer, s);
    if peer.queue != [] {
      LateBehind(WithHeld(s, p, more), p, peer.held.value, alloc);
    } else {
      StaleRelease(WithHeld(s, p, more), p, peer.held.value, alloc);
    }
  }

  /** Releasing a held packet keeps its peer in order exactly when the packet
      is newer than everything queued for and offered to that peer. */
  lemma SyncReleaseExact(s: Rtp, p: PeerId, more: bool, alloc: bool)
    requires RtpInv(s, true) && Enabled(s, FlushSync(p, more, alloc))
    ensures Delivers(Next(s, FlushSync(p, more, alloc)).peers[p]) <==> SyncInOrder(s.peers[p])
  {
    if SyncInOrder(s.peers[p]) {
      OrderSync(s, p, more, alloc, true);
      var t := Next(s, FlushSync(p, more, alloc));
      assert PeerOk(p, t.peers[p], t, true);
    } else {
      assert PeerOk(p, s.peers[p], s, true);
      LateRelease(s, p, more, alloc);
    }
  }

  lemma StaleRelease(s: Rtp, p: PeerId, n: nat, alloc: bool)
    requires p in s.peers && s.peers[p].queue == [] && n < Latest(s.peers[p].offers)
    ensures !Delivers(EnqueueUnicast(s, p, n, alloc).peers[p])
  {
    var peer, peer' := s.peers[p], EnqueueUnicast(s, p, n, alloc).peers[p];
    var o := |peer.offers|;
    assert peer.queue + [Fresh(n)] == [Fresh(n)];
    assert peer'.queue[0].n == n < peer.offers[o - 1];
    if peer'.offers != peer.offers {
      assert peer'.offers[o] == n && peer'.offers[o - 1] == peer.offers[o - 1];
    }
  }

  /** Admission is all or nothing: an attempt leaves every reliable queue alone,
      or adds exactly one copy to each eligible peer and to nobody else. */
  lemma AdmitAllOrNothing(s: Rtp, fits: bool, alloc: bool, p: PeerId)
    requires s.pending != [] && p in s.peers
    ensures var t := AdmitStep(s, fits, alloc);
            && p in t.peers
            && (t.peers == s.peers
                || (t.pending == s.pending[1..]
                    && t.peers.Keys == s.peers.Keys
                    && if Eligible(s.peers[p], s.pending[0].epoch)
                       then multiset(t.peers[p].queue) == multiset(s.peers[p].queue) + multiset{Fresh(s.pending[0].n)}
                       else t.peers[p] == s.peers[p]))
  {
    match Judge(s, fits, alloc)
    case Go => InsertAdds(s.peers[p].queue, Fresh(s.pending[0].n));
    case Cancel => ResumeFrame(s.(pending := s.pending[1..]));
    case _ =>
  }

  /** The held packet overtaken: INIT (1) is acknowledged, the synchronization
      packet (2) is held while a unicast (3) is queued and offered, and then 2
      is queued behind 3 and offered after it. */
  lemma LateSyncRelease() returns (steps: seq<Step>)
    ensures IsRun(INITIAL, steps) && 0 in After(INITIAL, steps).peers
    ensures After(INITIAL, steps).peers[0].offers == [1, 3, 2]
  {
    var s1 := Next(INITIAL, NewPeer(0));
    var s2 := Next(s1, SendInit(0, true));
    assert s2.peers[0] == Peer(Pending, 0, [Fresh(1)], 1, None, [1]);
    var rest := Synchronizing(s2);
    OneMore(s1, SendInit(0, true), rest);
    steps := [NewPeer(0)] + ([SendInit(0, true)] + rest);
    OneMore(INITIAL, NewPeer(0), [SendInit(0, true)] + rest);
  }

  lemma Synchronizing(s: Rtp) returns (steps: seq<Step>)
    requires 0 in s.peers && s.peers[0] == Peer(Pending, 0, [Fresh(1)], 1, None, [1])
    requires s.next == 2 && s.epoch == 0 && s.pending == []
    ensures IsRun(s, steps) && 0 in After(s, steps).peers
    ensures After(s, steps).peers[0].offers == [1, 3, 2]
  {
    var s3 := Next(s, Ack(0, true));
    assert s3.peers[0] == Peer(Up, 1, [], 0, Some(2), [1]);
    var rest := Overtaken(s3);
    OneMore(s, Ack(0, true), rest);
    steps := [Ack(0, true)] + rest;
  }

  lemma Overtaken(s: Rtp) returns (steps: seq<Step>)
    requires 0 in s.peers && s.peers[0] == Peer(Up, 1, [], 0, Some(2), [1])
    requires s.next == 3 && s.pending == []
    ensures IsRun(s, steps) && 0 in After(s, steps).peers
    ensures After(s, steps).peers[0].offers == [1, 3, 2]
  {
    var s4 := Next(s, FlushUnicast(0, true));
    assert s4.peers[0] == Peer(Up, 1, [Fresh(3)], 0, Some(2), [1, 3]);
    var s5 := Next(s4, FlushSync(0, false, true));
    assert s5.peers[0] == Peer(Up, 1, [Fresh(3), Fresh(2)], 0, None, [1, 3]);
    OvertakenOffer(s5);
    OneMore(s5, Ack(0, true), []);
    OneMore(s4, FlushSync(0, false, true), [Ack(0, true)] + []);
    steps := [FlushUnicast(0, true)] + ([FlushSync(0, false, true)] + ([Ack(0, true)] + []));
    OneMore(s, FlushUnicast(0, true), [FlushSync(0, false, true)] + ([Ack(0, true)] + []));
  }

  lemma OvertakenOffer(s: Rtp)
    requires 0 in s.peers && s.peers[0] == Peer(Up, 1, [Fresh(3), Fresh(2)], 0, None, [1, 3])
    requires s.pending == []
    ensures 0 in AckStep(s, 0, true).peers && AckStep(s, 0, true).peers[0].offers == [1, 3, 2]
  {}

  lemma OneMore(s: Rtp, step: Step, rest: seq<Step>)
    requires Enabled(s, step) && IsRun(Next(s, step), rest)
    ensures IsRun(s, [step] + rest)
    ensures After(s, [step] + rest) == After(Next(s, step), rest)
  {
    assert ([step] + rest)[1..] == rest;
  }
}
