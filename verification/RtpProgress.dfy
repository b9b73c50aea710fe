/**
 Progress of the reliable transport: the head of every reliable queue is on its
 way out, waiting for an earlier multicast, or covered by its retransmit timer,
 and a peer is torn down by the retry limit only after sixteen retransmissions
 reached the wire.
 */
module RtpProgress {
  import opened Common
  import opened RtpModel
  import opened RtpOrder

  /** The wire image of a retransmission of index n to peer p. */
  function Retry(p: PeerId, n: nat): Image {
    Image(n, ToPeer(p), true)
  }

  ghost predicate FirstQueued(obuf: seq<Image>, p: PeerId, n: nat) {
    exists image :: image in obuf && image.n == n && Reaches(image, p) && !image.retrans
  }

  /** A head that was sent has its timer or a retry queued; one that was not is
      queued for its first send or waits behind a multicast. */
  ghost predicate HeadMoves(p: PeerId, peer: Peer, s: Rtp) {
    peer.queue != [] ==>
      var h := peer.queue[0];
      && (h.sent ==> h.timer || h.retryQueued)
      && (!h.sent ==> h == Fresh(h.n) && (FirstQueued(s.obuf, p, h.n) || Behind(s.pending, peer, h.n)))
  }

  /** How often index n was retransmitted to p, and how many retries are queued. */
  ghost predicate Tally(p: PeerId, n: nat, s: Rtp, queued: nat, sent: nat) {
    multiset(s.obuf)[Retry(p, n)] == queued && multiset(s.wire)[Retry(p, n)] == sent
  }

  function Flag(b: bool): nat { if b then 1 else 0 }

  ghost predicate EntryTally(p: PeerId, e: Entry, s: Rtp) {
    && Tally(p, e.n, s, Flag(e.retryQueued), e.retries)
    && e.retries + Flag(e.retryQueued) <= RETRANS_MAX
  }

  /** Retries are accounted for: the counter of each queued packet is the number
      of its retransmissions on the wire, with at most one more queued. */
  ghost predicate RetriesCounted(p: PeerId, peer: Peer, s: Rtp) {
    && (forall i :: 0 <= i < |peer.queue| ==> EntryTally(p, peer.queue[i], s))
    && (peer.held.Some? ==> Tally(p, peer.held.value, s, 0, 0))
    && (forall i :: 0 <= i < |s.pending| && Eligible(peer, s.pending[i].epoch) ==> Tally(p, s.pending[i].n, s, 0, 0))
  }

  ghost predicate HistoryOk(s: Rtp) {
    && (forall image :: image in s.obuf ==> image.n < s.next)
    && (forall image :: image in s.wire ==> image.n < s.next)
  }

  ghost predicate PeerMoves(p: PeerId, peer: Peer, s: Rtp) {
    HeadMoves(p, peer, s) && RetriesCounted(p, peer, s)
  }

  ghost predicate ProgressInv(s: Rtp) {
    HistoryOk(s) && forall p :: p in s.peers ==> PeerMoves(p, s.peers[p], s)
  }

  /** The steps in which first images are allocated and reach the wire. */
  predicate CleanStep(s: Rtp, step: Step) {
    match step
    case SendInit(_, alloc) => alloc
    case FlushUnicast(_, alloc) => alloc
    case FlushSync(_, _, alloc) => alloc
    case Ack(_, alloc) => alloc
    case WireSend(ok) => ok || (s.obuf != [] && s.obuf[0].retrans)
    case _ => true
  }

  ghost predicate CleanRun(s: Rtp, steps: seq<Step>)
    requires IsRun(s, steps)
    decreases |steps|
  {
    steps != [] ==>
      CleanStep(s, steps[0]) && CleanRun(Next(s, steps[0]), steps[1..])
  }

  /** The head of p is in the output queue, timed, or behind a multicast. */
  ghost predicate Moving(s: Rtp, p: PeerId)
    requires HasHead(s, p)
  {
    var peer := s.peers[p];
    var h := peer.queue[0];
    || (exists image :: image in s.obuf && image.n == h.n && Reaches(image, p))
    || h.timer
    || Behind(s.pending, peer, h.n)
  }

  // ----- counting images -----

  lemma CountAppend(a: seq<Image>, x: Image, y: Image)
    ensures multiset(a + [x])[y] == multiset(a)[y] + Flag(x == y)
  {}

  lemma CountTail(a: seq<Image>, y: Image)
    requires a != []
    ensures multiset(a[1..])[y] + Flag(a[0] == y) == multiset(a)[y]
  {
    assert a == [a[0]] + a[1..];
  }

  predicate Dropped(image: Image, p: PeerId, n: nat, retriesOnly: bool) {
    image.to == ToPeer(p) && (retriesOnly ==> image.retrans && image.n == n)
  }

  lemma {:induction false} CountDrop(obuf: seq<Image>, p: PeerId, n: nat, retriesOnly: bool, y: Image)
    ensures multiset(Drop(obuf, p, n, retriesOnly))[y] == if Dropped(y, p, n, retriesOnly) then 0 else multiset(obuf)[y]
    ensures y in Drop(obuf, p, n, retriesOnly) <==> y in obuf && !Dropped(y, p, n, retriesOnly)
  {
    if obuf != [] {
      CountDrop(obuf[1..], p, n, retriesOnly, y);
      assert obuf == [obuf[0]] + obuf[1..];
    }
  }

  // ----- one peer -----

  /** No retry of p appears or disappears. */
  ghost predicate SameRetries(p: PeerId, s: Rtp, t: Rtp) {
    forall n: nat {:trigger Retry(p, n)} ::
      && multiset(t.obuf)[Retry(p, n)] == multiset(s.obuf)[Retry(p, n)]
      && multiset(t.wire)[Retry(p, n)] == multiset(s.wire)[Retry(p, n)]
  }

  lemma CountedFrame(p: PeerId, peer: Peer, s: Rtp, t: Rtp)
    requires RetriesCounted(p, peer, s) && SameRetries(p, s, t)
    requires t.pending == s.pending || (s.pending != [] && t.pending == s.pending[1..])
    ensures RetriesCounted(p, peer, t)
  {
    forall i | 0 <= i < |peer.queue| ensures EntryTally(p, peer.queue[i], t) {
      assert EntryTally(p, peer.queue[i], s);
    }
    forall i | 0 <= i < |t.pending| && Eligible(peer, t.pending[i].epoch) ensures Tally(p, t.pending[i].n, t, 0, 0) {
      var k := if t.pending == s.pending then i else i + 1;
      assert Tally(p, s.pending[k].n, s, 0, 0);
    }
  }

  /** A peer that is left alone keeps moving while the first image of its head
      stays queued and no multicast owed to it is taken away. */
  lemma MovesFrame(p: PeerId, peer: Peer, s: Rtp, t: Rtp)
    requires PeerMoves(p, peer, s) && SameRetries(p, s, t)
    requires peer.queue != [] && FirstQueued(s.obuf, p, peer.queue[0].n) ==> FirstQueued(t.obuf, p, peer.queue[0].n)
    requires t.pending == s.pending
          || (s.pending != [] && t.pending == s.pending[1..] && !Eligible(peer, s.pending[0].epoch))
    ensures PeerMoves(p, peer, t)
  {
    CountedFrame(p, peer, s, t);
    if peer.queue != [] && Behind(s.pending, peer, peer.queue[0].n) {
      var i :| 0 <= i < |s.pending| && s.pending[i].n < peer.queue[0].n && Eligible(peer, s.pending[i].epoch);
      var k := if t.pending == s.pending then i else i - 1;
      assert t.pending[k] == s.pending[i];
    }
  }

  /** Accounted for, and with an untouched head: ready to be sent. */
  ghost predicate Primed(p: PeerId, peer: Peer, s: Rtp) {
    && RetriesCounted(p, peer, s)
    && (peer.queue != [] ==> peer.queue[0] == Fresh(peer.queue[0].n))
  }

  // ----- whole state -----

  /** Only peer p and images for it are touched. */
  lemma ProgressOne(s: Rtp, t: Rtp, p: PeerId)
    requires (forall q :: q in s.peers && q != p ==> PeerMoves(q, s.peers[q], s)) && HistoryOk(t)
    requires p in t.peers && t.peers == s.peers[p := t.peers[p]] && PeerMoves(p, t.peers[p], t)
    requires t.pending == s.pending && t.wire == s.wire
    requires t.obuf == s.obuf || exists n: nat, retrans :: t.obuf == s.obuf + [Image(n, ToPeer(p), retrans)]
    ensures ProgressInv(t)
  {
    forall q | q in t.peers ensures PeerMoves(q, t.peers[q], t) {
      if q != p {
        assert SameRetries(q, s, t);
        MovesFrame(q, s.peers[q], s, t);
      }
    }
  }

  lemma ProgressResume(s: Rtp)
    requires ProgressInv(s)
    ensures ProgressInv(Resume(s))
  {
    ResumeFrame(s);
    ProgressFrame(s, Resume(s));
  }

  /** Nothing but counters and flags. */
  lemma ProgressFrame(s: Rtp, t: Rtp)
    requires ProgressInv(s) && t.next >= s.next
    requires forall p :: p in t.peers ==> p in s.peers && t.peers[p] == s.peers[p]
    requires t.pending == s.pending && t.obuf == s.obuf && t.wire == s.wire
    ensures ProgressInv(t)
  {
    forall p | p in t.peers ensures PeerMoves(p, t.peers[p], t) {
      MovesFrame(p, s.peers[p], s, t);
    }
  }

  lemma SendOk(s: Rtp, p: PeerId)
    requires p in s.peers && Primed(p, s.peers[p], s)
    ensures var t := SendReliably(s, p, true);
            p in t.peers && PeerMoves(p, t.peers[p], t)
  {
    var peer, t := s.peers[p], SendReliably(s, p, true);
    if peer.queue != [] && !Behind(s.pending, peer, peer.queue[0].n) {
      var image := Image(peer.queue[0].n, ToPeer(p), false);
      assert image in t.obuf;
      assert SameRetries(p, s, t);
      CountedFrame(p, peer, s, t);
    }
  }

  /** Sending the head of a primed peer restores progress everywhere. */
  lemma ProgressSend(s: Rtp, p: PeerId)
    requires p in s.peers && Primed(p, s.peers[p], s) && HistoryOk(s)
    requires s.peers[p].queue != [] ==> s.peers[p].queue[0].n < s.next
    requires forall q :: q in s.peers && q != p ==> PeerMoves(q, s.peers[q], s)
    ensures ProgressInv(SendReliably(s, p, true))
  {
    SendOk(s, p);
    ProgressOne(s, SendReliably(s, p, true), p);
  }

  // ----- one lemma per kind of step -----

  /** An index not yet reserved has never been retransmitted. */
  lemma UnusedTally(p: PeerId, s: Rtp, n: nat)
    requires HistoryOk(s) && n >= s.next
    ensures Tally(p, n, s, 0, 0)
  {
    assert Retry(p, n) !in s.obuf && Retry(p, n) !in s.wire;
  }

  lemma ProgressEnqueue(s: Rtp, p: PeerId, n: nat)
    requires ProgressInv(s) && p in s.peers && n < s.next && Tally(p, n, s, 0, 0)
    ensures ProgressInv(EnqueueUnicast(s, p, n, true))
  {
    var peer := s.peers[p];
    var peer' := peer.(queue := peer.queue + [Fresh(n)]);
    var t := s.(peers := s.peers[p := peer']);
    assert PeerMoves(p, peer, s);
    forall i | 0 <= i < |peer'.queue| ensures EntryTally(p, peer'.queue[i], s) {
      if i < |peer.queue| { assert EntryTally(p, peer.queue[i], s); }
    }
    assert RetriesCounted(p, peer', s);
    CountedFrame(p, peer', s, t);
    forall q | q in t.peers && q != p ensures PeerMoves(q, t.peers[q], t) {
      MovesFrame(q, s.peers[q], s, t);
    }
    if peer.queue == [] {
      ProgressSend(t, p);
    } else {
      assert PeerMoves(p, peer', t);
    }
  }

  lemma ProgressReserve(s: Rtp)
    requires ProgressInv(s)
    ensures ProgressInv(Reserved(s))
  {
    ProgressFrame(s, Reserved(s));
  }

  lemma ProgressFlush(s: Rtp, p: PeerId)
    requires ProgressInv(s) && p in s.peers
    ensures ProgressInv(FlushStep(s, p, true))
  {
    ProgressReserve(s);
    UnusedTally(p, s, s.next);
    ProgressEnqueue(Reserved(s), p, s.next);
  }

  lemma ProgressHeld(s: Rtp, p: PeerId, more: bool)
    requires ProgressInv(s) && p in s.peers
    ensures ProgressInv(WithHeld(s, p, more))
  {
    var t := WithHeld(s, p, more);
    UnusedTally(p, s, s.next);
    assert PeerMoves(p, s.peers[p], s);
    assert RetriesCounted(p, t.peers[p], s);
    CountedFrame(p, t.peers[p], s, t);
    ProgressOne(s, t, p);
  }

  lemma ProgressSync(s: Rtp, p: PeerId, more: bool)
    requires RtpInv(s, false) && ProgressInv(s) && p in s.peers && s.peers[p].held.Some?
    ensures ProgressInv(EnqueueUnicast(WithHeld(s, p, more), p, s.peers[p].held.value, true))
  {
    var n := s.peers[p].held.value;
    assert n < s.next by { assert PeerOk(p, s.peers[p], s, false); }
    assert Tally(p, n, s, 0, 0) by { assert PeerMoves(p, s.peers[p], s); }
    ProgressHeld(s, p, more);
    ProgressEnqueue(WithHeld(s, p, more), p, n);
  }

  lemma MulticastMoves(p: PeerId, peer: Peer, s: Rtp)
    requires HistoryOk(s) && PeerMoves(p, peer, s)
    ensures PeerMoves(p, peer, WithMulticast(s))
  {
    var t := WithMulticast(s);
    UnusedTally(p, s, s.next);
    forall i | 0 <= i < |peer.queue| ensures EntryTally(p, peer.queue[i], t) {
      assert EntryTally(p, peer.queue[i], s);
    }
    if peer.queue != [] && Behind(s.pending, peer, peer.queue[0].n) {
      var i :| 0 <= i < |s.pending| && s.pending[i].n < peer.queue[0].n && Eligible(peer, s.pending[i].epoch);
      assert t.pending[i] == s.pending[i];
    }
  }

  lemma ProgressMulticast(s: Rtp)
    requires ProgressInv(s)
    ensures ProgressInv(Resume(WithMulticast(s)))
  {
    forall p | p in s.peers ensures PeerMoves(p, s.peers[p], WithMulticast(s)) {
      MulticastMoves(p, s.peers[p], s);
    }
    assert ProgressInv(WithMulticast(s));
    ProgressResume(WithMulticast(s));
  }

  lemma CopyCounted(p: PeerId, peer: Peer, s: Rtp)
    requires Distinct(peer.queue) && RetriesCounted(p, peer, s)
    requires s.pending != [] && Eligible(peer, s.pending[0].epoch)
    ensures RetriesCounted(p, WithCopy(peer, s.pending[0].n), s)
  {
    var n := s.pending[0].n;
    InsertIndex(peer.queue, Fresh(n));
    var k, r := PriorCount(peer.queue, n), Insert(peer.queue, Fresh(n));
    forall i | 0 <= i < |r| ensures EntryTally(p, r[i], s) {
      if i < k { assert EntryTally(p, peer.queue[i], s); }
      else if i > k { assert EntryTally(p, peer.queue[i - 1], s); }
    }
  }

  /** With its copy a peer's head is the copy, offered at once, or the old head. */
  lemma CopyHeadMoves(p: PeerId, s: Rtp)
    requires RtpInv(s, false) && p in s.peers && PeerMoves(p, s.peers[p], s) && s.pending != []
    requires Eligible(s.peers[p], s.pending[0].epoch)
    ensures HeadMoves(p, Admitted(s).peers[p], Admitted(s))
  {
    var peer, t, m := s.peers[p], Admitted(s), s.pending[0];
    assert PeerOk(p, peer, s, false);
    InsertIndex(peer.queue, Fresh(m.n));
    var image := Image(m.n, ToAll, false);
    assert image == t.obuf[|s.obuf|];
    if PriorCount(peer.queue, m.n) > 0 && FirstQueued(s.obuf, p, peer.queue[0].n) {
      var first :| first in s.obuf && first.n == peer.queue[0].n && Reaches(first, p) && !first.retrans;
      assert first in t.obuf;
    }
  }

  lemma CopyMoves(p: PeerId, s: Rtp)
    requires RtpInv(s, false) && p in s.peers && PeerMoves(p, s.peers[p], s) && s.pending != []
    ensures PeerMoves(p, Admitted(s).peers[p], Admitted(s))
  {
    var peer, t, m := s.peers[p], Admitted(s), s.pending[0];
    assert SameRetries(p, s, t);
    if Eligible(peer, m.epoch) {
      assert Distinct(peer.queue) by { assert PeerOk(p, peer, s, false); }
      CopyHeadMoves(p, s);
      CopyCounted(p, peer, s);
      CountedFrame(p, WithCopy(peer, m.n), s, t);
    } else {
      MovesFrame(p, peer, s, t);
    }
  }

  lemma ProgressAdmitted(s: Rtp)
    requires RtpInv(s, false) && ProgressInv(s) && s.pending != []
    ensures ProgressInv(Admitted(s))
  {
    var t := Admitted(s);
    forall p | p in t.peers ensures PeerMoves(p, t.peers[p], t) { CopyMoves(p, s); }
  }

  /** A multicast without receivers can go: nobody waits for it. */
  lemma ProgressCancel(s: Rtp)
    requires ProgressInv(s) && s.pending != [] && !AnyReceives(s, s.pending[0])
    ensures ProgressInv(s.(pending := s.pending[1..]))
  {
    var t := s.(pending := s.pending[1..]);
    forall p | p in t.peers ensures PeerMoves(p, t.peers[p], t) {
      assert !Receives(s, s.pending[0], p);
      MovesFrame(p, s.peers[p], s, t);
    }
  }

  lemma ProgressAdmit(s: Rtp, fits: bool, alloc: bool)
    requires RtpInv(s, false) && ProgressInv(s)
    ensures ProgressInv(AdmitStep(s, fits, alloc))
  {
    match Judge(s, fits, alloc)
    case Go => ProgressAdmitted(s);
    case Cancel =>
      ProgressCancel(s);
      ProgressResume(s.(pending := s.pending[1..]));
    case _ => ProgressFrame(s, AdmitStep(s, fits, alloc));
  }

  /** A wire send moves one retry from the output queue to the wire, or none. */
  lemma WireCounts(s: Rtp, ok: bool, y: Image)
    requires s.obuf != []
    ensures multiset(WireStep(s, ok).obuf)[y] + Flag(s.obuf[0] == y) == multiset(s.obuf)[y]
    ensures multiset(WireStep(s, ok).wire)[y] == multiset(s.wire)[y] + Flag(ok && s.obuf[0] == y)
  {
    CountTail(s.obuf, y);
    CountAppend(s.wire, s.obuf[0], y);
  }

  lemma WireQueueCounted(p: PeerId, peer: Peer, s: Rtp, ok: bool, i: nat)
    requires s.obuf != [] && Reaches(s.obuf[0], p) && (s.obuf[0].retrans ==> s.obuf[0].to.ToPeer?)
    requires Distinct(peer.queue) && i < |peer.queue|
    requires i > 0 ==> peer.queue[i] == Fresh(peer.queue[i].n)
    requires EntryTally(p, peer.queue[i], s)
    ensures |SendEffect(peer, s.obuf[0], ok).queue| == |peer.queue|
    ensures EntryTally(p, SendEffect(peer, s.obuf[0], ok).queue[i], WireStep(s, ok))
  {
    WireCounts(s, ok, Retry(p, peer.queue[i].n));
    if s.obuf[0].retrans { assert s.obuf[0] == Retry(p, s.obuf[0].n) && s.obuf[0] in s.obuf; }
  }

  lemma WireIdleCounted(p: PeerId, n: nat, s: Rtp, ok: bool)
    requires s.obuf != [] && Tally(p, n, s, 0, 0)
    ensures Tally(p, n, WireStep(s, ok), 0, 0)
  {
    WireCounts(s, ok, Retry(p, n));
    assert s.obuf[0] in s.obuf;
  }

  lemma WireCounted(p: PeerId, peer: Peer, s: Rtp, ok: bool)
    requires s.obuf != [] && Reaches(s.obuf[0], p) && (s.obuf[0].retrans ==> s.obuf[0].to.ToPeer?)
    requires Distinct(peer.queue)
    requires forall i :: 0 < i < |peer.queue| ==> peer.queue[i] == Fresh(peer.queue[i].n)
    requires RetriesCounted(p, peer, s)
    ensures RetriesCounted(p, SendEffect(peer, s.obuf[0], ok), WireStep(s, ok))
  {
    var t := WireStep(s, ok);
    var peer' := SendEffect(peer, s.obuf[0], ok);
    forall i | 0 <= i < |peer'.queue| ensures EntryTally(p, peer'.queue[i], t) {
      WireQueueCounted(p, peer, s, ok, i);
    }
    if peer.held.Some? { WireIdleCounted(p, peer.held.value, s, ok); }
    forall i | 0 <= i < |s.pending| && Eligible(peer, s.pending[i].epoch) ensures Tally(p, s.pending[i].n, t, 0, 0) {
      WireIdleCounted(p, s.pending[i].n, s, ok);
    }
  }

  lemma WireMoves(p: PeerId, s: Rtp, ok: bool)
    requires RtpInv(s, false) && p in s.peers && PeerMoves(p, s.peers[p], s)
    requires s.obuf != [] && (ok || s.obuf[0].retrans)
    ensures PeerMoves(p, WireStep(s, ok).peers[p], WireStep(s, ok))
  {
    var image, t, peer := s.obuf[0], WireStep(s, ok), s.peers[p];
    assert image in s.obuf;
    assert forall x :: x in s.obuf && x != image ==> x in t.obuf;
    if Reaches(image, p) {
      assert PeerOk(p, peer, s, false);
      WireCounted(p, peer, s, ok);
      if peer.queue != [] && peer.queue[0].n != image.n && FirstQueued(s.obuf, p, peer.queue[0].n) {
        assert FirstQueued(t.obuf, p, peer.queue[0].n);
      }
      if peer.queue != [] && image.retrans && peer.queue[0].n == image.n {
        assert EntryTally(p, peer.queue[0], s);
        assert image in s.obuf && image == Retry(p, image.n);
        assert multiset(s.obuf)[image] > 0;
      }
    } else {
      forall n: nat ensures multiset(t.obuf)[Retry(p, n)] == multiset(s.obuf)[Retry(p, n)] && multiset(t.wire)[Retry(p, n)] == multiset(s.wire)[Retry(p, n)] {
        WireCounts(s, ok, Retry(p, n));
      }
      assert SameRetries(p, s, t);
      assert peer.queue != [] && FirstQueued(s.obuf, p, peer.queue[0].n) ==> FirstQueued(t.obuf, p, peer.queue[0].n);
      MovesFrame(p, peer, s, t);
    }
  }

  lemma ProgressWire(s: Rtp, ok: bool)
    requires RtpInv(s, false) && ProgressInv(s) && s.obuf != [] && (ok || s.obuf[0].retrans)
    ensures ProgressInv(WireStep(s, ok))
  {
    var t := WireStep(s, ok);
    assert s.obuf[0] in s.obuf;
    assert forall x :: x in t.wire ==> x in s.wire || x == s.obuf[0];
    forall p | p in t.peers ensures PeerMoves(p, t.peers[p], t) { WireMoves(p, s, ok); }
  }

  /** Dropping images of p leaves the other peers alone. */
  lemma DropMoves(s: Rtp, t: Rtp, p: PeerId, n: nat, retriesOnly: bool, q: PeerId)
    requires q in s.peers && q != p && PeerMoves(q, s.peers[q], s)
    requires t.obuf == Drop(s.obuf, p, n, retriesOnly) && t.wire == s.wire && t.pending == s.pending
    ensures PeerMoves(q, s.peers[q], t)
  {
    forall k: nat ensures multiset(t.obuf)[Retry(q, k)] == multiset(s.obuf)[Retry(q, k)] {
      CountDrop(s.obuf, p, n, retriesOnly, Retry(q, k));
    }
    assert SameRetries(q, s, t);
    var peer := s.peers[q];
    if peer.queue != [] && FirstQueued(s.obuf, q, peer.queue[0].n) {
      var first :| first in s.obuf && first.n == peer.queue[0].n && Reaches(first, q) && !first.retrans;
      CountDrop(s.obuf, p, n, retriesOnly, first);
      assert first in t.obuf;
    }
    MovesFrame(q, peer, s, t);
  }

  /** After the acknowledgment p has an untouched head and nobody else changed. */
  ghost predicate AllBut(s: Rtp, p: PeerId) {
    && HistoryOk(s) && p in s.peers && Primed(p, s.peers[p], s)
    && (s.peers[p].queue != [] ==> s.peers[p].queue[0].n < s.next)
    && (forall q :: q in s.peers && q != p ==> PeerMoves(q, s.peers[q], s))
  }

  lemma DequeueCounts(s: Rtp, p: PeerId, n: nat)
    requires HasHead(s, p)
    ensures multiset(Dequeued(s, p).obuf)[Retry(p, n)]
              == if s.peers[p].queue[0].retryQueued && n == s.peers[p].queue[0].n then 0
                 else multiset(s.obuf)[Retry(p, n)]
    ensures Dequeued(s, p).wire == s.wire
  {
    CountDrop(s.obuf, p, s.peers[p].queue[0].n, true, Retry(p, n));
  }

  lemma DequeuePrimed(s: Rtp, p: PeerId)
    requires RtpInv(s, false) && HasHead(s, p) && PeerMoves(p, s.peers[p], s)
    ensures Primed(p, Dequeued(s, p).peers[p], Dequeued(s, p))
  {
    var peer, t := s.peers[p], Dequeued(s, p);
    assert PeerOk(p, peer, s, false);
    forall i | 0 <= i < |peer.queue| - 1 ensures EntryTally(p, peer.queue[1..][i], t) {
      assert EntryTally(p, peer.queue[i + 1], s);
      DequeueCounts(s, p, peer.queue[i + 1].n);
    }
    if peer.held.Some? { DequeueCounts(s, p, peer.held.value); }
    forall i | 0 <= i < |s.pending| && Eligible(peer, s.pending[i].epoch) ensures Tally(p, s.pending[i].n, t, 0, 0) {
      DequeueCounts(s, p, s.pending[i].n);
    }
  }

  lemma ProgressDequeue(s: Rtp, p: PeerId)
    requires RtpInv(s, false) && ProgressInv(s) && HasHead(s, p)
    ensures AllBut(Dequeued(s, p), p)
  {
    var t, h := Dequeued(s, p), s.peers[p].queue[0];
    assert PeerOk(p, s.peers[p], s, false);
    DequeuePrimed(s, p);
    DropKeeps(s.obuf, p, h.n, true);
    forall q | q in t.peers && q != p ensures PeerMoves(q, t.peers[q], t) {
      if h.retryQueued {
        DropMoves(s, t, p, h.n, true, q);
      } else {
        MovesFrame(q, s.peers[q], s, t);
      }
    }
  }

  lemma AllButResume(s: Rtp, p: PeerId)
    requires AllBut(s, p)
    ensures AllBut(Resume(s), p)
  {
    ResumeFrame(s);
    var t := Resume(s);
    CountedFrame(p, s.peers[p], s, t);
    forall q | q in t.peers && q != p ensures PeerMoves(q, t.peers[q], t) {
      MovesFrame(q, s.peers[q], s, t);
    }
  }

  lemma ProgressUp(s: Rtp, p: PeerId)
    requires PendingOk(s) && AllBut(s, p) && s.peers[p].queue == []
    ensures ProgressInv(CameUp(s, p))
  {
    var t := CameUp(s, p);
    UnusedTally(p, s, s.next);
    assert RetriesCounted(p, t.peers[p], t);
    ProgressOne(s, t, p);
  }

  lemma InitAlone(s: Rtp, p: PeerId)
    requires RtpInv(s, false) && HasHead(s, p) && s.peers[p].link == Pending
    ensures Dequeued(s, p).peers[p].queue == []
  {
    assert PeerOk(p, s.peers[p], s, false);
  }

  lemma ProgressAck(s: Rtp, p: PeerId)
    requires RtpInv(s, false) && ProgressInv(s) && HasHead(s, p)
    ensures ProgressInv(AckStep(s, p, true))
  {
    var d := Dequeued(s, p);
    ProgressDequeue(s, p);
    AllButResume(d, p);
    ResumeFrame(d);
    if s.peers[p].link == Pending && s.peers[p].queue[0].n == s.peers[p].init {
      InitAlone(s, p);
      OrderDequeue(s, p, false);
      OrderResume(d, false);
      ProgressUp(Resume(d), p);
    } else {
      ProgressSend(Resume(d), p);
    }
  }

  lemma ProgressDown(s: Rtp, p: PeerId, purge: bool, delete: bool)
    requires HistoryOk(s) && p in s.peers
    requires forall q :: q in s.peers && q != p ==> PeerMoves(q, s.peers[q], s)
    ensures ProgressInv(DownStep(s, p, purge, delete))
  {
    var s1 := if purge then DropOutput(s, p, 0, false) else s;
    var s2 := s1.(peers := s1.peers[p := WentDown(s1.peers[p])]);
    DropKeeps(s.obuf, p, 0, false);
    forall q | q in s2.peers ensures PeerMoves(q, s2.peers[q], s2) {
      if q != p {
        if purge { DropMoves(s, s2, p, 0, false, q); } else { MovesFrame(q, s.peers[q], s, s2); }
      }
    }
    assert ProgressInv(s2);
    ProgressResume(s2);
    ResumeFrame(s2);
    ProgressFrame(Resume(s2), DownStep(s, p, purge, delete));
  }

  lemma HeadCounted(p: PeerId, peer: Peer, s: Rtp, t: Rtp, h: Entry)
    requires Distinct(peer.queue) && RetriesCounted(p, peer, s) && peer.queue != [] && h.n == peer.queue[0].n
    requires t.pending == s.pending && EntryTally(p, h, t)
    requires forall n: nat {:trigger Retry(p, n)} :: n != h.n ==>
               && multiset(t.obuf)[Retry(p, n)] == multiset(s.obuf)[Retry(p, n)]
               && multiset(t.wire)[Retry(p, n)] == multiset(s.wire)[Retry(p, n)]
    requires peer.held != Some(h.n)
    requires forall i :: 0 <= i < |s.pending| && Eligible(peer, s.pending[i].epoch) ==> s.pending[i].n != h.n
    ensures RetriesCounted(p, peer.(queue := peer.queue[0 := h]), t)
  {
    var peer' := peer.(queue := peer.queue[0 := h]);
    forall i | 0 <= i < |peer'.queue| ensures EntryTally(p, peer'.queue[i], t) {
      if i > 0 { assert EntryTally(p, peer.queue[i], s); }
    }
  }

  /** Queuing a retry of the head moves its tally and no other. */
  lemma RetryCounted(p: PeerId, s: Rtp, t: Rtp)
    requires RtpInv(s, false) && HasHead(s, p) && PeerMoves(p, s.peers[p], s)
    requires !s.peers[p].queue[0].retryQueued && s.peers[p].queue[0].retries < RETRANS_MAX
    requires t.obuf == s.obuf + [Retry(p, s.peers[p].queue[0].n)] && t.wire == s.wire && t.pending == s.pending
    ensures RetriesCounted(p, s.peers[p].(queue := s.peers[p].queue[0 := Requeued(s.peers[p].queue[0])]), t)
  {
    var peer, h := s.peers[p], s.peers[p].queue[0];
    assert PeerOk(p, peer, s, false);
    assert EntryTally(p, h, s);
    CountAppend(s.obuf, Retry(p, h.n), Retry(p, h.n));
    forall i | 0 <= i < |s.pending| && Eligible(peer, s.pending[i].epoch) ensures s.pending[i].n != h.n {
      assert Unclaimed(p, peer, s.pending[i], s.obuf);
    }
    HeadCounted(p, peer, s, t, Requeued(h));
  }

  function Requeued(h: Entry): Entry { h.(timer := false, retryQueued := true) }

  lemma TimerMoves(s: Rtp, p: PeerId)
    requires RtpInv(s, false) && ProgressInv(s) && HasHead(s, p) && s.peers[p].queue[0].timer
    requires !s.peers[p].queue[0].retryQueued && s.peers[p].queue[0].retries < RETRANS_MAX
    ensures ProgressInv(TimerStep(s, p, true))
  {
    var peer, h, t := s.peers[p], s.peers[p].queue[0], TimerStep(s, p, true);
    assert PeerMoves(p, peer, s);
    assert h.sent && t.obuf == s.obuf + [Retry(p, h.n)];
    assert t.peers[p] == peer.(queue := peer.queue[0 := Requeued(h)], offers := peer.offers + [h.n]);
    RetryCounted(p, s, t);
    assert h.n < s.next by { assert PeerOk(p, peer, s, false); }
    ProgressOne(s, t, p);
  }

  lemma TimerLimit(s: Rtp, p: PeerId, alloc: bool)
    requires RtpInv(s, false) && ProgressInv(s) && HasHead(s, p)
    requires !s.peers[p].queue[0].retryQueued && s.peers[p].queue[0].retries >= RETRANS_MAX
    ensures ProgressInv(TimerStep(s, p, alloc))
  {
    var s1 := WithHead(s, p, s.peers[p].queue[0].(timer := false));
    forall q | q in s1.peers && q != p ensures PeerMoves(q, s1.peers[q], s1) {
      MovesFrame(q, s.peers[q], s, s1);
    }
    ProgressDown(s1, p, true, true);
  }

  /** The timer changes nothing but the head's timer flag. */
  lemma TimerIdle(s: Rtp, p: PeerId, timer: bool)
    requires RtpInv(s, false) && ProgressInv(s) && HasHead(s, p)
    requires s.peers[p].queue[0].timer && (timer || s.peers[p].queue[0].retryQueued)
    ensures ProgressInv(WithHead(s, p, s.peers[p].queue[0].(timer := timer)))
  {
    var t := WithHead(s, p, s.peers[p].queue[0].(timer := timer));
    assert PeerMoves(p, s.peers[p], s);
    forall i | 0 <= i < |t.peers[p].queue| ensures EntryTally(p, t.peers[p].queue[i], t) {
      assert EntryTally(p, s.peers[p].queue[i], s);
    }
    assert PeerMoves(p, t.peers[p], t);
    ProgressOne(s, t, p);
  }

  lemma ProgressTimer(s: Rtp, p: PeerId, alloc: bool)
    requires RtpInv(s, false) && ProgressInv(s) && HasHead(s, p) && s.peers[p].queue[0].timer
    ensures ProgressInv(TimerStep(s, p, alloc))
  {
    var h := s.peers[p].queue[0];
    if !h.retryQueued && h.retries >= RETRANS_MAX {
      TimerLimit(s, p, alloc);
    } else if !h.retryQueued && alloc {
      TimerMoves(s, p);
    } else {
      TimerIdle(s, p, !h.retryQueued);
    }
  }

  lemma ProgressInit(s: Rtp, p: PeerId)
    requires RtpInv(s, false) && ProgressInv(s) && Enabled(s, SendInit(p, true))
    ensures ProgressInv(Next(s, SendInit(p, true)))
  {
    assert s.peers[p].queue == [] by { assert PeerOk(p, s.peers[p], s, false); }
    InitIsSend(s, p, true);
    InitPrimed(s, p);
    ProgressSend(WithInit(s, p), p);
  }

  lemma InitPrimed(s: Rtp, p: PeerId)
    requires RtpInv(s, false) && ProgressInv(s) && p in s.peers && s.peers[p].link == Down
    ensures AllBut(WithInit(s, p), p)
  {
    var t := WithInit(s, p);
    UnusedTally(p, s, s.next);
    assert PeerMoves(p, s.peers[p], s);
    assert PeerOk(p, s.peers[p], s, false);
    forall q | q in t.peers && q != p ensures PeerMoves(q, t.peers[q], t) {
      MovesFrame(q, s.peers[q], s, t);
    }
  }

  lemma ProgressNew(s: Rtp, p: PeerId)
    requires ProgressInv(s) && p !in s.peers
    ensures ProgressInv(Next(s, NewPeer(p)))
  {
    ProgressOne(s, Next(s, NewPeer(p)), p);
  }

  lemma ProgressRetry(s: Rtp)
    requires ProgressInv(s)
    ensures ProgressInv(Resume(s.(retryTimer := false)))
  {
    ProgressFrame(s, s.(retryTimer := false));
    ProgressResume(s.(retryTimer := false));
  }

  // ----- main results -----

  lemma ProgressLinkStep(s: Rtp, step: Step)
    requires RtpInv(s, false) && ProgressInv(s) && Enabled(s, step) && CleanStep(s, step)
    requires step.NewPeer? || step.SendInit? || step.Ack? || step.PeerDown? || step.InterfaceDown?
    ensures ProgressInv(Next(s, step))
  {
    match step
    case NewPeer(p) => ProgressNew(s, p);
    case SendInit(p, _) => ProgressInit(s, p);
    case Ack(p, _) => ProgressAck(s, p);
    case PeerDown(p, purge, delete) => ProgressDown(s, p, purge, delete);
    case InterfaceDown =>
  }

  lemma ProgressFlushStep(s: Rtp, step: Step)
    requires RtpInv(s, false) && ProgressInv(s) && Enabled(s, step) && CleanStep(s, step)
    requires step.ReserveElsewhere? || step.FlushUnicast? || step.HoldSync? || step.FlushSync? || step.FlushMulticast?
    ensures ProgressInv(Next(s, step))
  {
    match step
    case ReserveElsewhere => ProgressReserve(s);
    case FlushUnicast(p, _) => ProgressFlush(s, p);
    case HoldSync(p) => ProgressHeld(s, p, true);
    case FlushSync(p, more, _) => ProgressSync(s, p, more);
    case FlushMulticast => ProgressMulticast(s);
  }

  lemma ProgressOutputStep(s: Rtp, step: Step)
    requires RtpInv(s, false) && ProgressInv(s) && Enabled(s, step) && CleanStep(s, step)
    requires step.Admit? || step.McastRetry? || step.WireSend? || step.RetransTimer?
    ensures ProgressInv(Next(s, step))
  {
    match step
    case Admit(fits, alloc) => ProgressAdmit(s, fits, alloc);
    case McastRetry => ProgressRetry(s);
    case WireSend(ok) => ProgressWire(s, ok);
    case RetransTimer(p, alloc) => ProgressTimer(s, p, alloc);
  }

  lemma StepKeepsProgress(s: Rtp, step: Step)
    requires RtpInv(s, false) && ProgressInv(s) && Enabled(s, step) && CleanStep(s, step)
    ensures ProgressInv(Next(s, step))
  {
    if step.Admit? || step.McastRetry? || step.WireSend? || step.RetransTimer? {
      ProgressOutputStep(s, step);
    } else if step.NewPeer? || step.SendInit? || step.Ack? || step.PeerDown? || step.InterfaceDown? {
      ProgressLinkStep(s, step);
    } else {
      ProgressFlushStep(s, step);
    }
  }

  lemma {:induction false} RunKeepsProgress(s: Rtp, steps: seq<Step>)
    requires RtpInv(s, false) && ProgressInv(s) && IsRun(s, steps) && CleanRun(s, steps)
    ensures RtpInv(After(s, steps), false) && ProgressInv(After(s, steps))
    decreases |steps|
  {
    if steps != [] {
      StepKeepsInv(s, steps[0], false);
      StepKeepsProgress(s, steps[0]);
      RunKeepsProgress(Next(s, steps[0]), steps[1..]);
    }
  }

  lemma MovesIsMoving(s: Rtp, p: PeerId)
    requires HasHead(s, p) && PeerMoves(p, s.peers[p], s)
    ensures Moving(s, p)
  {
    var h := s.peers[p].queue[0];
    assert EntryTally(p, h, s);
    if h.sent && !h.timer {
      assert multiset(s.obuf)[Retry(p, h.n)] == 1;
      assert Retry(p, h.n) in s.obuf;
    }
  }

  /** RTP progress: in every state reachable by clean steps, a peer with a
      non-empty reliable queue has its head in the output queue, or its
      retransmit timer armed, or an earlier eligible multicast still pending. */
  lemma QueuesNeverStall(steps: seq<Step>, p: PeerId)
    requires IsRun(INITIAL, steps) && CleanRun(INITIAL, steps)
    requires HasHead(After(INITIAL, steps), p)
    ensures Moving(After(INITIAL, steps), p)
  {
    RunKeepsProgress(INITIAL, steps);
    MovesIsMoving(After(INITIAL, steps), p);
  }

  /** The retry limit tears a peer down after exactly sixteen retransmissions
      of its head reached the wire, and never before. */
  lemma TeardownAfterSixteen(steps: seq<Step>, p: PeerId, alloc: bool)
    requires IsRun(INITIAL, steps) && CleanRun(INITIAL, steps)
    requires Enabled(After(INITIAL, steps), RetransTimer(p, alloc))
    ensures var s := After(INITIAL, steps);
            var n := s.peers[p].queue[0].n;
            (p !in Next(s, RetransTimer(p, alloc)).peers
             <==> multiset(s.wire)[Retry(p, n)] == RETRANS_MAX && multiset(s.obuf)[Retry(p, n)] == 0)
  {
    RunKeepsProgress(INITIAL, steps);
    var s := After(INITIAL, steps);
    assert PeerMoves(p, s.peers[p], s);
    assert EntryTally(p, s.peers[p].queue[0], s);
    TimerRemoves(s, p, alloc);
  }

  lemma TimerRemoves(s: Rtp, p: PeerId, alloc: bool)
    requires HasHead(s, p)
    ensures p !in TimerStep(s, p, alloc).peers
       <==> !s.peers[p].queue[0].retryQueued && s.peers[p].queue[0].retries >= RETRANS_MAX
  {}

  // ----- what a timer on an unsent head does -----

  /** A queued retry that will clear `retry_queued` when it leaves. */
  ghost predicate Rearms(s: Rtp, p: PeerId)
    requires HasHead(s, p)
  {
    s.peers[p].queue[0].retryQueued ==> Retry(p, s.peers[p].queue[0].n) in s.obuf
  }

  /** A timer that fires on a head marks it `retry_queued`; the mark is paired
      with a retransmission, which alone clears it, exactly when the head had
      been sent before (or nothing could be queued at all). */
  lemma TimerRearmsExactly(s: Rtp, p: PeerId, alloc: bool)
    requires HasHead(s, p) && !s.peers[p].queue[0].retryQueued
    requires s.peers[p].queue[0].retries < RETRANS_MAX
    requires Retry(p, s.peers[p].queue[0].n) !in s.obuf
    ensures HasHead(TimerStep(s, p, alloc), p)
    ensures Rearms(TimerStep(s, p, alloc), p) <==> s.peers[p].queue[0].sent || !alloc
  {
    var t, n := TimerStep(s, p, alloc), s.peers[p].queue[0].n;
    if alloc {
      assert t.obuf == s.obuf + [Image(n, ToPeer(p), s.peers[p].queue[0].sent)];
    }
  }

  /** Marked as having a retry queued although none is. */
  ghost predicate Stuck(s: Rtp, p: PeerId, n: nat) {
    && HasHead(s, p) && s.peers[p].queue[0].n == n && s.peers[p].queue[0].retryQueued
    && Retry(p, n) !in s.obuf
  }

  /** Steps that leave peer p's adjacency and its head alone. */
  predicate Spares(step: Step, p: PeerId) {
    match step
    case Ack(q, _) => q != p
    case PeerDown(q, _, _) => q != p
    case InterfaceDown => false
    case _ => true
  }

  lemma StuckKept(s: Rtp, t: Rtp, p: PeerId, n: nat)
    requires Stuck(s, p, n) && HasHead(t, p)
    requires t.peers[p].queue[0].n == n && t.peers[p].queue[0].retryQueued
    requires forall image :: image in t.obuf ==> image in s.obuf || image != Retry(p, n)
    ensures Stuck(t, p, n)
  {}

  lemma StuckSend(s: Rtp, p: PeerId, n: nat, q: PeerId, alloc: bool)
    requires Stuck(s, p, n) && q in s.peers && q != p
    ensures Stuck(SendReliably(s, q, alloc), p, n)
    ensures SendReliably(s, q, alloc).wire == s.wire
  {}

  lemma StuckEnqueue(s: Rtp, p: PeerId, n: nat, q: PeerId, k: nat, alloc: bool)
    requires Stuck(s, p, n) && q in s.peers
    ensures Stuck(EnqueueUnicast(s, q, k, alloc), p, n)
    ensures EnqueueUnicast(s, q, k, alloc).wire == s.wire
  {
    var t := s.(peers := s.peers[q := s.peers[q].(queue := s.peers[q].queue + [Fresh(k)])]);
    StuckKept(s, t, p, n);
    if s.peers[q].queue == [] {
      StuckSend(t, p, n, q, alloc);
    }
  }

  /** A worked head stays the head when a multicast is admitted. */
  lemma HeadStays(s: Rtp, p: PeerId)
    requires RtpInv(s, false) && HasHead(s, p) && s.pending != []
    requires s.peers[p].queue[0] != Fresh(s.peers[p].queue[0].n)
    ensures HasHead(Admitted(s), p) && Admitted(s).peers[p].queue[0] == s.peers[p].queue[0]
  {
    var peer, m := s.peers[p], s.pending[0];
    assert PeerOk(p, peer, s, false);
    assert Unclaimed(p, peer, m, s.obuf);
  }

  lemma StuckAdmit(s: Rtp, p: PeerId, n: nat, fits: bool, alloc: bool)
    requires RtpInv(s, false) && Stuck(s, p, n)
    ensures Stuck(AdmitStep(s, fits, alloc), p, n)
    ensures AdmitStep(s, fits, alloc).wire == s.wire
  {
    match Judge(s, fits, alloc)
    case Go =>
      HeadStays(s, p);
      StuckKept(s, Admitted(s), p, n);
    case Cancel => ResumeFrame(s.(pending := s.pending[1..]));
    case _ =>
  }

  lemma StuckDrop(s: Rtp, p: PeerId, n: nat, q: PeerId, k: nat, retriesOnly: bool)
    requires Stuck(s, p, n)
    ensures Stuck(DropOutput(s, q, k, retriesOnly), p, n)
  {
    DropKeeps(s.obuf, q, k, retriesOnly);
  }

  lemma StuckAck(s: Rtp, p: PeerId, n: nat, q: PeerId, alloc: bool)
    requires Stuck(s, p, n) && HasHead(s, q) && q != p
    ensures Stuck(AckStep(s, q, alloc), p, n)
    ensures AckStep(s, q, alloc).wire == s.wire
  {
    StuckDrop(s, p, n, q, s.peers[q].queue[0].n, true);
    var d := Dequeued(s, q);
    StuckKept(s, d, p, n);
    ResumeFrame(d);
    StuckSend(Resume(d), p, n, q, alloc);
  }

  lemma StuckDown(s: Rtp, p: PeerId, n: nat, q: PeerId, purge: bool, delete: bool)
    requires Stuck(s, p, n) && q in s.peers && q != p
    ensures Stuck(DownStep(s, q, purge, delete), p, n)
    ensures DownStep(s, q, purge, delete).wire == s.wire
  {
    StuckDrop(s, p, n, q, 0, false);
    var s1 := if purge then DropOutput(s, q, 0, false) else s;
    ResumeFrame(s1.(peers := s1.peers[q := WentDown(s1.peers[q])]));
  }

  lemma StuckTimer(s: Rtp, p: PeerId, n: nat, q: PeerId, alloc: bool)
    requires Stuck(s, p, n) && HasHead(s, q)
    ensures Stuck(TimerStep(s, q, alloc), p, n)
    ensures TimerStep(s, q, alloc).wire == s.wire
  {
    var h := s.peers[q].queue[0].(timer := false);
    if q != p && !h.retryQueued && h.retries >= RETRANS_MAX {
      StuckDown(WithHead(s, q, h), p, n, q, true, true);
    }
  }

  lemma StuckWire(s: Rtp, p: PeerId, n: nat, ok: bool)
    requires RtpInv(s, false) && Stuck(s, p, n) && s.obuf != []
    ensures Stuck(WireStep(s, ok), p, n)
    ensures multiset(WireStep(s, ok).wire)[Retry(p, n)] == multiset(s.wire)[Retry(p, n)]
  {
    assert s.obuf[0] in s.obuf;
    CountAppend(s.wire, s.obuf[0], Retry(p, n));
    assert forall image :: image in s.obuf[1..] ==> image in s.obuf;
  }

  lemma StuckInit(s: Rtp, p: PeerId, n: nat, q: PeerId, alloc: bool)
    requires RtpInv(s, false) && Stuck(s, p, n) && Enabled(s, SendInit(q, alloc))
    ensures Stuck(Next(s, SendInit(q, alloc)), p, n)
    ensures Next(s, SendInit(q, alloc)).wire == s.wire
  {
    assert s.peers[q].queue == [] by { assert PeerOk(q, s.peers[q], s, false); }
    StuckEnqueue(Reserved(s), p, n, q, s.next, alloc);
  }

  lemma StuckStep(s: Rtp, p: PeerId, n: nat, step: Step)
    requires RtpInv(s, false) && Stuck(s, p, n) && Enabled(s, step) && Spares(step, p)
    ensures Stuck(Next(s, step), p, n)
    ensures multiset(Next(s, step).wire)[Retry(p, n)] == multiset(s.wire)[Retry(p, n)]
  {
    match step
    case SendInit(q, alloc) => StuckInit(s, p, n, q, alloc);
    case FlushUnicast(q, alloc) => StuckEnqueue(Reserved(s), p, n, q, s.next, alloc);
    case FlushSync(q, more, alloc) => StuckEnqueue(WithHeld(s, q, more), p, n, q, s.peers[q].held.value, alloc);
    case FlushMulticast => ResumeFrame(WithMulticast(s));
    case Admit(fits, alloc) => StuckAdmit(s, p, n, fits, alloc);
    case McastRetry => ResumeFrame(s.(retryTimer := false));
    case WireSend(ok) => StuckWire(s, p, n, ok);
    case Ack(q, alloc) => StuckAck(s, p, n, q, alloc);
    case RetransTimer(q, alloc) => StuckTimer(s, p, n, q, alloc);
    case PeerDown(q, purge, delete) => StuckDown(s, p, n, q, purge, delete);
    case _ =>
  }

  /** Once a head is marked without a retry queued, no further step short of its
      acknowledgment or the end of the adjacency ever retransmits it: the retry
      limit is never reached either. */
  lemma {:induction false} StuckForever(s: Rtp, p: PeerId, n: nat, steps: seq<Step>)
    requires RtpInv(s, false) && Stuck(s, p, n) && IsRun(s, steps)
    requires forall i :: 0 <= i < |steps| ==> Spares(steps[i], p)
    ensures Stuck(After(s, steps), p, n)
    ensures multiset(After(s, steps).wire)[Retry(p, n)] == multiset(s.wire)[Retry(p, n)]
    decreases |steps|
  {
    if steps != [] {
      StuckStep(s, p, n, steps[0]);
      StepKeepsInv(s, steps[0], false);
      StuckForever(Next(s, steps[0]), p, n, steps[1..]);
    }
  }

  /** How a head gets stuck: its first send fails, the timer queues it again as
      another first send, and the mark stays. */
  lemma FailedFirstSend() returns (steps: seq<Step>)
    ensures IsRun(INITIAL, steps)
    ensures Stuck(After(INITIAL, steps), 0, 1)
  {
    var s1 := Next(INITIAL, NewPeer(0));
    var s2 := Next(s1, SendInit(0, true));
    assert s2.peers[0] == Peer(Pending, 0, [Fresh(1)], 1, None, [1]);
    assert s2.obuf == [Image(1, ToPeer(0), false)];
    var rest := FailedSend(s2);
    OneMore(s1, SendInit(0, true), rest);
    steps := [NewPeer(0)] + ([SendInit(0, true)] + rest);
    OneMore(INITIAL, NewPeer(0), [SendInit(0, true)] + rest);
  }

  lemma FailedSend(s: Rtp) returns (steps: seq<Step>)
    requires 0 in s.peers && s.peers[0] == Peer(Pending, 0, [Fresh(1)], 1, None, [1])
    requires s.obuf == [Image(1, ToPeer(0), false)]
    ensures IsRun(s, steps) && Stuck(After(s, steps), 0, 1)
  {
    var s3 := Next(s, WireSend(false));
    assert s3.peers[0].queue == [Entry(1, false, 0, false, true)] && s3.obuf == [];
    StuckByTimer(s3);
    var rest := [RetransTimer(0, true)] + [];
    OneMore(s3, RetransTimer(0, true), []);
    steps := [WireSend(false)] + rest;
    OneMore(s, WireSend(false), rest);
  }

  lemma StuckByTimer(s: Rtp)
    requires 0 in s.peers && s.peers[0].queue == [Entry(1, false, 0, false, true)] && s.obuf == []
    ensures Stuck(TimerStep(s, 0, true), 0, 1)
  {
    assert TimerStep(s, 0, true).obuf == [Image(1, ToPeer(0), false)];
  }
}
