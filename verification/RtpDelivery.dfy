/**
 What each step of the reliable transport does to a peer and to its reliable
 queue, and from that, who gets a packet: a multicast is owed to exactly the peers
 that are UP when it is queued, and reaches the queue of each that stays UP; what
 is in a queue stays there until it is acknowledged.
 */
module RtpDelivery {
  import opened Common
  import opened RtpModel
  import opened RtpOrder

  ghost predicate Holds(q: seq<Entry>, n: nat) { exists i :: 0 <= i < |q| && q[i].n == n }

  /** Packet n is in the reliable queue of p. */
  ghost predicate Carries(s: Rtp, p: PeerId, n: nat) { p in s.peers && Holds(s.peers[p].queue, n) }

  /** Multicast n waits for admission, and p is to get it. */
  ghost predicate Owed(s: Rtp, p: PeerId, n: nat) {
    exists i :: 0 <= i < |s.pending| && s.pending[i].n == n && Receives(s, s.pending[i], p)
  }

  predicate IsUp(s: Rtp, p: PeerId) { p in s.peers && s.peers[p].link == Up }

  // ----- what a step means for a peer -----

  /** The timer of a head that was retransmitted sixteen times without an answer. */
  predicate GivesUp(s: Rtp, step: Step, p: PeerId) {
    && step.RetransTimer? && step.p == p && HasHead(s, p)
    && !s.peers[p].queue[0].retryQueued && s.peers[p].queue[0].retries >= 16
  }

  predicate GoesDown(s: Rtp, step: Step, p: PeerId) {
    step.InterfaceDown? || (step.PeerDown? && step.p == p) || GivesUp(s, step, p)
  }

  predicate Vanishes(s: Rtp, step: Step, p: PeerId) {
    step.InterfaceDown? || (step.PeerDown? && step.p == p && step.delete) || GivesUp(s, step, p)
  }

  /** Packet n is acknowledged by p. */
  predicate Acks(s: Rtp, step: Step, p: PeerId, n: nat) {
    step.Ack? && step.p == p && HasHead(s, p) && s.peers[p].queue[0].n == n
  }

  /** The INIT packet is acknowledged. */
  predicate ComesUp(s: Rtp, step: Step, p: PeerId) {
    p in s.peers && s.peers[p].link == Pending && Acks(s, step, p, s.peers[p].init)
  }

  ghost predicate Admits(s: Rtp, step: Step) {
    step.Admit? && s.pending != [] && Judge(s, step.fits, step.alloc) == Go
  }

  /** The packets that a step puts into the queue of p. */
  ghost predicate Queues(s: Rtp, step: Step, p: PeerId, n: nat) {
    || ((step.FlushUnicast? || step.SendInit?) && step.p == p && n == s.next)
    || (step.FlushSync? && step.p == p && p in s.peers && s.peers[p].held == Some(n))
    || (Admits(s, step) && s.pending[0].n == n && Receives(s, s.pending[0], p))
  }

  // ----- the laws -----

  ghost predicate PresenceLaw(s: Rtp, step: Step, t: Rtp, p: PeerId) {
    p in t.peers <==> (p in s.peers && !Vanishes(s, step, p)) || step == NewPeer(p)
  }

  ghost predicate LinkLaw(s: Rtp, step: Step, t: Rtp, p: PeerId) {
    p in s.peers && p in t.peers ==>
      && t.peers[p].link == (if GoesDown(s, step, p) then Down
                             else if ComesUp(s, step, p) then Up
                             else if step.SendInit? && step.p == p then Pending
                             else s.peers[p].link)
      && t.peers[p].epoch == (if ComesUp(s, step, p) then s.epoch + 1 else s.peers[p].epoch)
      && t.peers[p].held == (if GoesDown(s, step, p) then None
                             else if ComesUp(s, step, p) || (step.HoldSync? && step.p == p) then Some(s.next)
                             else if step.FlushSync? && step.p == p then if step.more then Some(s.next) else None
                             else s.peers[p].held)
  }

  ghost predicate QueueLaw(s: Rtp, step: Step, t: Rtp, p: PeerId, n: nat) {
    p in s.peers && p in t.peers ==>
      (Carries(t, p, n) <==>
       !GoesDown(s, step, p) && (Queues(s, step, p, n) || (Carries(s, p, n) && !Acks(s, step, p, n))))
  }

  /** A peer that is not there yet starts from nothing. */
  ghost predicate NewLaw(s: Rtp, step: Step, t: Rtp, p: PeerId) {
    p !in s.peers && p in t.peers ==> t.peers[p] == Peer(Down, 0, [], 0, None, [])
  }

  predicate PendingLaw(s: Rtp, step: Step, t: Rtp) {
    match step
    case FlushMulticast => |t.pending| == |s.pending| + 1 && t.pending[..|s.pending|] == s.pending
                           && t.pending[|s.pending|].n == s.next
    case InterfaceDown => t.pending == []
    case Admit(_, _) => t.pending == s.pending || (s.pending != [] && t.pending == s.pending[1..])
    case _ => t.pending == s.pending
  }

  /** Each packet built takes one number, each peer that comes UP one epoch. */
  predicate CounterLaw(s: Rtp, step: Step, t: Rtp) {
    var up := step.Ack? && ComesUp(s, step, step.p);
    var builds := step.ReserveElsewhere? || step.SendInit? || step.FlushUnicast? || step.HoldSync?
                  || step.FlushMulticast? || (step.FlushSync? && step.more) || up;
    t.next == s.next + (if builds then 1 else 0) && t.epoch == s.epoch + (if up then 1 else 0)
  }

  ghost predicate PeerLaw(s: Rtp, step: Step, t: Rtp, p: PeerId) {
    && PresenceLaw(s, step, t, p) && LinkLaw(s, step, t, p) && NewLaw(s, step, t, p)
    && (forall n: nat :: QueueLaw(s, step, t, p, n))
  }

  // ----- queues -----

  /** The same packets in the same order; flags and offers may differ. */
  ghost predicate Similar(a: Peer, b: Peer) {
    && b.link == a.link && b.epoch == a.epoch && b.held == a.held && |b.queue| == |a.queue|
    && (forall i :: 0 <= i < |a.queue| ==> b.queue[i].n == a.queue[i].n)
  }

  lemma SimilarHolds(a: Peer, b: Peer, n: nat)
    requires Similar(a, b)
    ensures Holds(a.queue, n) <==> Holds(b.queue, n)
  {
    if Holds(a.queue, n) {
      var i :| 0 <= i < |a.queue| && a.queue[i].n == n;
      assert b.queue[i].n == n;
    }
    if Holds(b.queue, n) {
      var i :| 0 <= i < |b.queue| && b.queue[i].n == n;
      assert a.queue[i].n == n;
    }
  }

  lemma AppendHolds(q: seq<Entry>, e: Entry, n: nat)
    ensures Holds(q + [e], n) <==> Holds(q, n) || e.n == n
  {
    if Holds(q, n) {
      var i :| 0 <= i < |q| && q[i].n == n;
      assert (q + [e])[i].n == n;
    }
    assert (q + [e])[|q|] == e;
  }

  lemma InsertHolds(q: seq<Entry>, e: Entry, n: nat)
    ensures Holds(Insert(q, e), n) <==> Holds(q, n) || e.n == n
  {
    InsertIndex(q, e);
    var k, r := PriorCount(q, e.n), Insert(q, e);
    if Holds(q, n) {
      var i :| 0 <= i < |q| && q[i].n == n;
      assert r[if i < k then i else i + 1].n == n;
    }
    if Holds(r, n) {
      var i :| 0 <= i < |r| && r[i].n == n;
      assert i < k ==> q[i].n == n;
      assert i > k ==> q[i - 1].n == n;
    }
    assert r[k] == e;
  }

  lemma TailHolds(q: seq<Entry>, n: nat)
    requires Distinct(q) && q != []
    ensures Holds(q[1..], n) <==> Holds(q, n) && q[0].n != n
  {
    if Holds(q[1..], n) {
      var i :| 0 <= i < |q[1..]| && q[1..][i].n == n;
      assert q[i + 1].n == n;
    }
    if Holds(q, n) && q[0].n != n {
      var i :| 0 <= i < |q| && q[i].n == n;
      assert q[1..][i - 1].n == n;
    }
  }

  // ----- one step and one peer -----

  /** Only flags, offers and the output queue change. */
  ghost predicate Quiet(s: Rtp, t: Rtp) {
    && t.peers.Keys == s.peers.Keys && t.pending == s.pending && t.next == s.next && t.epoch == s.epoch
    && (forall p :: p in s.peers ==> Similar(s.peers[p], t.peers[p]))
  }

  lemma SendIsQuiet(s: Rtp, p: PeerId, alloc: bool)
    requires p in s.peers
    ensures Quiet(s, SendReliably(s, p, alloc))
  {}

  lemma ResumeIsQuiet(s: Rtp)
    ensures Quiet(s, Resume(s))
  {
    ResumeFrame(s);
  }

  lemma WireIsQuiet(s: Rtp, ok: bool)
    requires s.obuf != []
    ensures Quiet(s, WireStep(s, ok))
  {}

  lemma TimerIsQuiet(s: Rtp, p: PeerId, alloc: bool)
    requires HasHead(s, p) && !GivesUp(s, RetransTimer(p, alloc), p)
    ensures Quiet(s, TimerStep(s, p, alloc))
  {
    var head := s.peers[p].queue[0].(timer := false);
    HeadIsQuiet(s, p, head);
    HeadIsQuiet(s, p, head.(timer := true));
    HeadIsQuiet(s, p, head.(retryQueued := true));
  }

  lemma HeadIsQuiet(s: Rtp, p: PeerId, e: Entry)
    requires HasHead(s, p) && e.n == s.peers[p].queue[0].n
    ensures Quiet(s, WithHead(s, p, e))
    ensures forall retrans :: Quiet(s, Offer(WithHead(s, p, e), p, retrans))
  {}

  /** A step that takes a quiet turn after reaching u. */
  lemma QuietLaw(s: Rtp, step: Step, u: Rtp, t: Rtp, p: PeerId)
    requires PeerLaw(s, step, u, p) && Quiet(u, t) && (p in u.peers ==> p in s.peers)
    ensures PeerLaw(s, step, t, p)
  {
    if p in u.peers {
      forall n: nat ensures QueueLaw(s, step, t, p, n) {
        SimilarHolds(u.peers[p], t.peers[p], n);
        assert QueueLaw(s, step, u, p, n);
      }
    }
  }

  /** Nothing happens to p but, maybe, a quiet turn. */
  lemma UntouchedLaw(s: Rtp, step: Step, t: Rtp, p: PeerId)
    requires p in s.peers ==> p in t.peers && Similar(s.peers[p], t.peers[p])
    requires p !in s.peers ==> p !in t.peers
    requires !GoesDown(s, step, p) && (step.Ack? ==> step.p != p) && step != NewPeer(p)
    requires forall n: nat :: !Queues(s, step, p, n)
    requires step.SendInit? || step.HoldSync? || step.FlushSync? ==> step.p != p
    ensures PeerLaw(s, step, t, p)
  {
    if p in s.peers {
      forall n: nat ensures QueueLaw(s, step, t, p, n) {
        SimilarHolds(s.peers[p], t.peers[p], n);
      }
    }
  }

  /** Packet n joins the queue of q. */
  lemma EnqueuedHolds(s: Rtp, q: PeerId, n: nat, alloc: bool, k: nat)
    requires q in s.peers
    ensures var t := EnqueueUnicast(s, q, n, alloc);
            && t.peers.Keys == s.peers.Keys && t.next == s.next && t.epoch == s.epoch && t.pending == s.pending
            && (forall p :: p in s.peers && p != q ==> t.peers[p] == s.peers[p])
            && t.peers[q].link == s.peers[q].link && t.peers[q].epoch == s.peers[q].epoch
            && t.peers[q].held == s.peers[q].held
            && (Holds(t.peers[q].queue, k) <==> Holds(s.peers[q].queue, k) || k == n)
  {
    var peer := s.peers[q];
    var s' := s.(peers := s.peers[q := peer.(queue := peer.queue + [Fresh(n)])]);
    AppendHolds(peer.queue, Fresh(n), k);
    SendIsQuiet(s', q, alloc);
    SimilarHolds(s'.peers[q], EnqueueUnicast(s, q, n, alloc).peers[q], k);
  }

  ghost predicate StepLaw(s: Rtp, step: Step, t: Rtp, p: PeerId) {
    PeerLaw(s, step, t, p) && PendingLaw(s, step, t) && CounterLaw(s, step, t)
  }

  lemma InitLaw(s: Rtp, q: PeerId, alloc: bool, p: PeerId)
    requires Enabled(s, SendInit(q, alloc))
    ensures StepLaw(s, SendInit(q, alloc), Next(s, SendInit(q, alloc)), p)
  {
    EnqueuedHolds(Reserved(s), q, s.next, alloc, 0);
    forall n: nat ensures QueueLaw(s, SendInit(q, alloc), Next(s, SendInit(q, alloc)), p, n) {
      EnqueuedHolds(Reserved(s), q, s.next, alloc, n);
    }
  }

  lemma UnicastLaw(s: Rtp, q: PeerId, alloc: bool, p: PeerId)
    requires Enabled(s, FlushUnicast(q, alloc))
    ensures StepLaw(s, FlushUnicast(q, alloc), FlushStep(s, q, alloc), p)
  {
    EnqueuedHolds(Reserved(s), q, s.next, alloc, 0);
    forall n: nat ensures QueueLaw(s, FlushUnicast(q, alloc), FlushStep(s, q, alloc), p, n) {
      EnqueuedHolds(Reserved(s), q, s.next, alloc, n);
    }
  }

  lemma SyncLaw(s: Rtp, q: PeerId, more: bool, alloc: bool, p: PeerId)
    requires Enabled(s, FlushSync(q, more, alloc))
    ensures StepLaw(s, FlushSync(q, more, alloc), SyncStep(s, q, more, alloc), p)
  {
    var held := s.peers[q].held.value;
    EnqueuedHolds(WithHeld(s, q, more), q, held, alloc, 0);
    forall n: nat ensures QueueLaw(s, FlushSync(q, more, alloc), SyncStep(s, q, more, alloc), p, n) {
      EnqueuedHolds(WithHeld(s, q, more), q, held, alloc, n);
    }
  }

  lemma CopiedLaw(s: Rtp, fits: bool, alloc: bool, p: PeerId)
    requires s.pending != [] && Judge(s, fits, alloc) == Go
    ensures StepLaw(s, Admit(fits, alloc), Admitted(s), p)
  {
    var t, m := Admitted(s), s.pending[0];
    forall n: nat ensures QueueLaw(s, Admit(fits, alloc), t, p, n) {
      if p in s.peers && Eligible(s.peers[p], m.epoch) {
        InsertHolds(s.peers[p].queue, Fresh(m.n), n);
      }
    }
  }

  lemma AdmitLaw(s: Rtp, fits: bool, alloc: bool, p: PeerId)
    requires s.pending != []
    ensures StepLaw(s, Admit(fits, alloc), AdmitStep(s, fits, alloc), p)
  {
    if Judge(s, fits, alloc) == Go {
      CopiedLaw(s, fits, alloc, p);
    } else {
      ResumeFrame(s.(pending := s.pending[1..]));
      NotAdmittedLaw(s, fits, alloc, AdmitStep(s, fits, alloc), p);
    }
  }

  lemma NotAdmittedLaw(s: Rtp, fits: bool, alloc: bool, t: Rtp, p: PeerId)
    requires s.pending != [] && Judge(s, fits, alloc) != Go
    requires t.peers == s.peers && t.next == s.next && t.epoch == s.epoch
    requires t.pending == s.pending || t.pending == s.pending[1..]
    ensures StepLaw(s, Admit(fits, alloc), t, p)
  {
    UntouchedLaw(s, Admit(fits, alloc), t, p);
  }

  /** The acknowledged head leaves, and nothing else. */
  lemma DequeuedLaw(s: Rtp, q: PeerId, alloc: bool, n: nat)
    requires HasHead(s, q) && Distinct(s.peers[q].queue)
    ensures var t := Dequeued(s, q);
            && t.peers.Keys == s.peers.Keys && t.next == s.next && t.epoch == s.epoch && t.pending == s.pending
            && (forall p :: p in s.peers && p != q ==> t.peers[p] == s.peers[p])
            && t.peers[q] == s.peers[q].(queue := s.peers[q].queue[1..])
            && (Holds(t.peers[q].queue, n) <==> Holds(s.peers[q].queue, n) && s.peers[q].queue[0].n != n)
  {
    TailHolds(s.peers[q].queue, n);
  }

  /** After the acknowledgment and its wake-up, before the next packet. */
  ghost function Acked(s: Rtp, q: PeerId): Rtp
    requires HasHead(s, q)
  {
    var s2 := Resume(Dequeued(s, q));
    if s.peers[q].link == Pending && s.peers[q].queue[0].n == s.peers[q].init then CameUp(s2, q) else s2
  }

  lemma AckedLaw(s: Rtp, q: PeerId, alloc: bool, p: PeerId)
    requires HasHead(s, q) && Distinct(s.peers[q].queue)
    ensures StepLaw(s, Ack(q, alloc), Acked(s, q), p)
  {
    var u := Resume(Dequeued(s, q));
    ResumeFrame(Dequeued(s, q));
    DequeuedLaw(s, q, alloc, 0);
    assert Acked(s, q) == if ComesUp(s, Ack(q, alloc), q) then CameUp(u, q) else u;
    forall n: nat ensures QueueLaw(s, Ack(q, alloc), Acked(s, q), p, n) {
      DequeuedLaw(s, q, alloc, n);
    }
    assert LinkLaw(s, Ack(q, alloc), Acked(s, q), p);
  }

  lemma AckLaw(s: Rtp, q: PeerId, alloc: bool, p: PeerId)
    requires HasHead(s, q) && Distinct(s.peers[q].queue)
    ensures StepLaw(s, Ack(q, alloc), AckStep(s, q, alloc), p)
  {
    AckedLaw(s, q, alloc, p);
    ResumeFrame(Dequeued(s, q));
    if !ComesUp(s, Ack(q, alloc), q) {
      SendIsQuiet(Acked(s, q), q, alloc);
      QuietLaw(s, Ack(q, alloc), Acked(s, q), AckStep(s, q, alloc), p);
    }
  }

  /** Going down, with whichever step it happens. */
  lemma DownLaw(s: Rtp, step: Step, u: Rtp, q: PeerId, purge: bool, delete: bool, p: PeerId)
    requires q in s.peers && q in u.peers && u == s.(peers := s.peers[q := u.peers[q]])
    requires u.peers[q].epoch == s.peers[q].epoch
    requires step == PeerDown(q, purge, delete) || (step.RetransTimer? && GivesUp(s, step, q) && delete)
    ensures StepLaw(s, step, DownStep(u, q, purge, delete), p)
  {
    var u1 := if purge then DropOutput(u, q, 0, false) else u;
    var u2 := u1.(peers := u1.peers[q := WentDown(u1.peers[q])]);
    ResumeFrame(u2);
    var t := DownStep(u, q, purge, delete);
    assert t.peers == if delete then u2.peers - {q} else u2.peers;
    forall n: nat ensures QueueLaw(s, step, t, p, n) {
      assert p == q && !delete ==> t.peers[p].queue == [];
    }
  }

  lemma TimerLaw(s: Rtp, q: PeerId, alloc: bool, p: PeerId)
    requires HasHead(s, q)
    ensures StepLaw(s, RetransTimer(q, alloc), TimerStep(s, q, alloc), p)
  {
    if GivesUp(s, RetransTimer(q, alloc), q) {
      DownLaw(s, RetransTimer(q, alloc), WithHead(s, q, s.peers[q].queue[0].(timer := false)), q, true, true, p);
    } else {
      TimerIsQuiet(s, q, alloc);
      UntouchedLaw(s, RetransTimer(q, alloc), TimerStep(s, q, alloc), p);
    }
  }

  lemma QuietStepLaw(s: Rtp, step: Step, p: PeerId)
    requires Enabled(s, step)
    requires step.ReserveElsewhere? || step.FlushMulticast? || step.McastRetry? || step.WireSend?
    ensures StepLaw(s, step, Next(s, step), p)
  {
    match step
    case FlushMulticast =>
      ResumeFrame(WithMulticast(s));
      UntouchedLaw(s, step, Resume(WithMulticast(s)), p);
    case McastRetry =>
      ResumeFrame(s.(retryTimer := false));
      UntouchedLaw(s, step, Resume(s.(retryTimer := false)), p);
    case WireSend(ok) =>
      WireIsQuiet(s, ok);
      UntouchedLaw(s, step, WireStep(s, ok), p);
    case ReserveElsewhere => UntouchedLaw(s, step, Reserved(s), p);
  }

  lemma PresenceStepLaw(s: Rtp, step: Step, p: PeerId)
    requires Enabled(s, step) && (step.NewPeer? || step.InterfaceDown? || step.HoldSync?)
    ensures StepLaw(s, step, Next(s, step), p)
  {}

  /** Every step obeys the laws for every peer. */
  lemma StepIsLawful(s: Rtp, step: Step, p: PeerId)
    requires RtpInv(s, false) && Enabled(s, step)
    ensures StepLaw(s, step, Next(s, step), p)
  {
    match step
    case SendInit(q, alloc) => InitLaw(s, q, alloc, p);
    case FlushUnicast(q, alloc) => UnicastLaw(s, q, alloc, p);
    case FlushSync(q, more, alloc) => SyncLaw(s, q, more, alloc, p);
    case Admit(fits, alloc) => AdmitLaw(s, fits, alloc, p);
    case Ack(q, alloc) =>
      assert PeerOk(q, s.peers[q], s, false);
      AckLaw(s, q, alloc, p);
    case RetransTimer(q, alloc) => TimerLaw(s, q, alloc, p);
    case PeerDown(q, purge, delete) => DownLaw(s, step, s, q, purge, delete, p);
    case NewPeer(_) => PresenceStepLaw(s, step, p);
    case HoldSync(_) => PresenceStepLaw(s, step, p);
    case InterfaceDown => PresenceStepLaw(s, step, p);
    case _ => QuietStepLaw(s, step, p);
  }

  // ----- admission and wake-up -----

  /** Nothing holds up the oldest multicast. */
  predicate Unblocked(s: Rtp) { !s.backoff && !s.waiting && !s.retryTimer }

  /** Some receiver can take it now, none has four earlier packets, and those that
      are busy can be listed. */
  ghost predicate Admissible(s: Rtp, m: Mcast, fits: bool) {
    && (exists p :: ReadyFor(s, m, p))
    && (forall p :: Receives(s, m, p) ==> PriorCount(s.peers[p].queue, m.n) < 4)
    && ((exists p :: BusyFor(s, m, p)) ==> fits)
  }

  /** When an attempt admits the oldest multicast, cancels it, or blocks the next
      attempt, and by what. */
  lemma AdmissionIs(s: Rtp, fits: bool, alloc: bool)
    requires s.pending != []
    ensures var m, t := s.pending[0], AdmitStep(s, fits, alloc);
            var admitted := Unblocked(s) && Admissible(s, m, fits) && alloc;
            var cancelled := Unblocked(s) && forall p :: !Receives(s, m, p);
            && (Judge(s, fits, alloc) == Go <==> admitted)
            && t.pending == (if admitted || cancelled then s.pending[1..] else s.pending)
            && t.obuf == (if admitted then s.obuf + [Image(m.n, ToAll, false)] else s.obuf)
            && (admitted ==> t.onWriteQ && Unblocked(t))
            && (Unblocked(s) && !admitted && !cancelled ==>
                  && (t.retryTimer <==> Admissible(s, m, fits))
                  && (t.waiting <==> (forall p :: !ReadyFor(s, m, p))
                                     && forall p :: Receives(s, m, p) ==> PriorCount(s.peers[p].queue, m.n) < 4)
                  && (t.backoff <==> !t.retryTimer && !t.waiting))
            && (!Unblocked(s) ==> t == s)
  {
    ResumeFrame(s.(pending := s.pending[1..]));
  }

  /** The writer is woken for the oldest multicast unless its retry timer runs, the
      drain it waits for is not over, or all its receivers are still busy. */
  lemma WakeUpIs(s: Rtp)
    ensures var t := Resume(s);
            var drained := s.pending != [] && !s.retryTimer && (s.backoff ==> forall p :: !BusyFor(s, s.pending[0], p));
            var wakes := drained && (s.waiting ==> (forall p :: !Receives(s, s.pending[0], p))
                                                   || exists p :: ReadyFor(s, s.pending[0], p));
            && (t.backoff <==> s.backoff && !drained)
            && (t.waiting <==> s.waiting && !wakes)
            && (t.onWriteQ <==> s.onWriteQ || wakes)
  {}

  // ----- who gets a packet -----

  /** A multicast is owed to exactly the peers that are UP when it is queued. */
  lemma MulticastOwedExactly(s: Rtp, p: PeerId)
    requires RtpInv(s, false)
    ensures Owed(Next(s, FlushMulticast), p, s.next) <==> IsUp(s, p)
    ensures !Carries(Next(s, FlushMulticast), p, s.next)
  {
    var t := Next(s, FlushMulticast);
    ResumeFrame(WithMulticast(s));
    var last := |s.pending|;
    if p in s.peers {
      assert PeerOk(p, s.peers[p], s, false);
      assert IsUp(s, p) ==> Receives(t, t.pending[last], p);
    }
    forall i | 0 <= i < last ensures t.pending[i].n != s.next {
      assert t.pending[i] == s.pending[i];
    }
  }

  ghost predicate StaysUp(s: Rtp, steps: seq<Step>, p: PeerId)
    requires IsRun(s, steps)
    decreases |steps|
  {
    IsUp(s, p) && (steps != [] ==> StaysUp(Next(s, steps[0]), steps[1..], p))
  }

  ghost predicate AckedOn(s: Rtp, steps: seq<Step>, p: PeerId, n: nat)
    requires IsRun(s, steps)
    decreases |steps|
  {
    steps != [] && (Acks(s, steps[0], p, n) || AckedOn(Next(s, steps[0]), steps[1..], p, n))
  }

  /** A multicast owed to a peer that stays UP is still owed after a step, or it is
      in the peer's queue. */
  lemma OwedStep(s: Rtp, step: Step, p: PeerId, n: nat)
    requires RtpInv(s, false) && Enabled(s, step) && Owed(s, p, n) && IsUp(Next(s, step), p)
    ensures Owed(Next(s, step), p, n) || Carries(Next(s, step), p, n)
  {
    var t := Next(s, step);
    StepIsLawful(s, step, p);
    var i :| 0 <= i < |s.pending| && s.pending[i].n == n && Receives(s, s.pending[i], p);
    assert QueueLaw(s, step, t, p, n);
    if t.pending == s.pending || step.FlushMulticast? {
      assert t.pending[i] == s.pending[i];
    } else if i > 0 {
      assert t.pending[i - 1] == s.pending[i];
    } else {
      AdmitOwed(s, step.fits, step.alloc, p);
    }
  }

  /** The oldest multicast does not leave the queue but to all its receivers. */
  lemma AdmitOwed(s: Rtp, fits: bool, alloc: bool, p: PeerId)
    requires s.pending != [] && Receives(s, s.pending[0], p)
    ensures Judge(s, fits, alloc) == Go || AdmitStep(s, fits, alloc).pending == s.pending
  {}

  /** What is queued for a peer that stays UP stays queued until acknowledged. */
  lemma CarriedStep(s: Rtp, step: Step, p: PeerId, n: nat)
    requires RtpInv(s, false) && Enabled(s, step) && Carries(s, p, n) && IsUp(Next(s, step), p)
    ensures Carries(Next(s, step), p, n) || Acks(s, step, p, n)
  {
    StepIsLawful(s, step, p);
    assert QueueLaw(s, step, Next(s, step), p, n);
  }

  /** Over every run on which a peer stays UP, what it is owed or has queued is
      still owed, still queued or was acknowledged. */
  lemma {:induction false} NothingIsLost(s: Rtp, steps: seq<Step>, p: PeerId, n: nat)
    requires RtpInv(s, false) && IsRun(s, steps) && StaysUp(s, steps, p)
    requires Owed(s, p, n) || Carries(s, p, n)
    ensures Owed(After(s, steps), p, n) || Carries(After(s, steps), p, n) || AckedOn(s, steps, p, n)
    decreases |steps|
  {
    if steps != [] && !Acks(s, steps[0], p, n) {
      var t := Next(s, steps[0]);
      StepKeepsInv(s, steps[0], false);
      if Owed(s, p, n) { OwedStep(s, steps[0], p, n); } else { CarriedStep(s, steps[0], p, n); }
      NothingIsLost(t, steps[1..], p, n);
    }
  }

  /** Packet n is not for p: not queued, not held and not owed, now or when it
      comes UP. */
  ghost predicate NotFor(s: Rtp, p: PeerId, n: nat) {
    && n < s.next && !Carries(s, p, n)
    && (p in s.peers ==> s.peers[p].held != Some(n))
    && (IsUp(s, p) ==> forall i :: 0 <= i < |s.pending| && s.pending[i].n == n ==> s.pending[i].epoch < s.peers[p].epoch)
  }

  lemma NotForStep(s: Rtp, step: Step, p: PeerId, n: nat)
    requires RtpInv(s, false) && Enabled(s, step) && NotFor(s, p, n)
    ensures NotFor(Next(s, step), p, n)
  {
    var t := Next(s, step);
    StepIsLawful(s, step, p);
    assert QueueLaw(s, step, t, p, n);
    if IsUp(t, p) {
      forall i | 0 <= i < |t.pending| && t.pending[i].n == n ensures t.pending[i].epoch < t.peers[p].epoch {
        var k := if step.Admit? && t.pending != s.pending then i + 1 else i;
        assert t.pending[i] == s.pending[k];
      }
    }
  }

  lemma {:induction false} NotForRun(s: Rtp, steps: seq<Step>, p: PeerId, n: nat)
    requires RtpInv(s, false) && IsRun(s, steps) && NotFor(s, p, n)
    ensures !Owed(After(s, steps), p, n) && !Carries(After(s, steps), p, n)
    ensures !AckedOn(s, steps, p, n)
    decreases |steps|
  {
    if steps != [] {
      NotForStep(s, steps[0], p, n);
      StepKeepsInv(s, steps[0], false);
      NotForRun(Next(s, steps[0]), steps[1..], p, n);
    }
  }

  lemma FlushedNotFor(s: Rtp, p: PeerId)
    requires RtpInv(s, false) && !IsUp(s, p)
    ensures NotFor(Next(s, FlushMulticast), p, s.next)
  {
    ResumeFrame(WithMulticast(s));
    assert p in s.peers ==> PeerOk(p, s.peers[p], s, false);
  }

  /** A peer that leaves UP forgets what it was owed. */
  lemma LeftNotFor(s: Rtp, step: Step, p: PeerId, n: nat)
    requires RtpInv(s, false) && Enabled(s, step) && IsUp(s, p) && !IsUp(Next(s, step), p) && n < s.next
    ensures NotFor(Next(s, step), p, n)
  {
    StepIsLawful(s, step, p);
    assert QueueLaw(s, step, Next(s, step), p, n);
  }

  /** ... so only a peer that is UP all the time still has or is owed it. */
  lemma {:induction false} OnlyWhileUp(s: Rtp, steps: seq<Step>, p: PeerId, n: nat)
    requires RtpInv(s, false) && IsRun(s, steps) && IsUp(s, p) && n < s.next
    requires Owed(After(s, steps), p, n) || Carries(After(s, steps), p, n)
    ensures StaysUp(s, steps, p)
    decreases |steps|
  {
    if steps != [] {
      var t := Next(s, steps[0]);
      StepKeepsInv(s, steps[0], false);
      StepIsLawful(s, steps[0], p);
      if IsUp(t, p) {
        OnlyWhileUp(t, steps[1..], p, n);
      } else {
        LeftNotFor(s, steps[0], p, n);
        NotForRun(t, steps[1..], p, n);
      }
    }
  }

  /** A multicast reaches exactly the peers that are UP when it is queued: for each
      that stays UP it is owed, queued or acknowledged; a peer that was not UP, or
      left UP since, is neither owed it nor has it, even if it comes UP again. */
  lemma MulticastReaches(s: Rtp, steps: seq<Step>, p: PeerId)
    requires RtpInv(s, false) && IsRun(Next(s, FlushMulticast), steps)
    ensures var t := Next(s, FlushMulticast);
            var u := After(t, steps);
            && (IsUp(s, p) && StaysUp(t, steps, p) ==>
                  Owed(u, p, s.next) || Carries(u, p, s.next) || AckedOn(t, steps, p, s.next))
            && (Owed(u, p, s.next) || Carries(u, p, s.next) ==> IsUp(s, p) && StaysUp(t, steps, p))
            && (AckedOn(t, steps, p, s.next) ==> IsUp(s, p))
  {
    var t := Next(s, FlushMulticast);
    var u := After(t, steps);
    StepKeepsInv(s, FlushMulticast, false);
    MulticastOwedExactly(s, p);
    StepIsLawful(s, FlushMulticast, p);
    if !IsUp(s, p) {
      FlushedNotFor(s, p);
      NotForRun(t, steps, p, s.next);
    } else {
      if StaysUp(t, steps, p) { NothingIsLost(t, steps, p, s.next); }
      if Owed(u, p, s.next) || Carries(u, p, s.next) { OnlyWhileUp(t, steps, p, s.next); }
    }
  }
}
