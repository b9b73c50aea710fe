/**
 No lost wake-up: a deferred multicast is on the writer's list, or something that
 will put it there is outstanding -- an armed retry timer, or a busy receiver
 whose acknowledgment or loss wakes the interface. This holds on every run,
 whatever allocations and wire sends fail.
 */
module RtpWakeup {
  import opened Common
  import opened RtpModel
  import opened RtpOrder

  /** The blocking flags exclude each other and outlive no multicast. */
  ghost predicate FlagsOk(s: Rtp) {
    && !(s.waiting && s.backoff)
    && (s.retryTimer || s.pending == [] ==> !s.waiting && !s.backoff)
    && (s.obuf != [] ==> s.onWriteQ)
    && (forall i :: 0 <= i < |s.pending| ==> s.pending[i].epoch <= s.epoch)
  }

  ghost predicate WakeInv(s: Rtp) {
    && FlagsOk(s)
    && (s.pending != [] ==>
          && (s.waiting ==> AnyReceives(s, s.pending[0]) && !AnyReady(s, s.pending[0]))
          && (s.backoff ==> AnyBusy(s, s.pending[0]))
          && (s.waiting || s.backoff || s.retryTimer || s.onWriteQ))
  }

  /** A multicast that is not being served has a reason that will go away. */
  ghost predicate Awaited(s: Rtp)
    requires s.pending != []
  {
    var m := s.pending[0];
    || (s.onWriteQ && !s.waiting && !s.backoff && !s.retryTimer)
    || s.retryTimer
    || (s.backoff && AnyBusy(s, m))
    || (s.waiting && AnyReceives(s, m) && forall p :: Receives(s, m, p) ==> BusyFor(s, m, p))
  }

  lemma ResumeWakes(s: Rtp)
    requires FlagsOk(s)
    ensures WakeInv(Resume(s))
  {
    ResumeFrame(s);
    if s.pending != [] {
      SameReceivers(s, Resume(s), s.pending[0]);
    }
  }

  /** Receivers and their backlog are a matter of the peers alone. */
  lemma SameReceivers(s: Rtp, t: Rtp, m: Mcast)
    requires t.peers == s.peers
    ensures AnyReceives(t, m) == AnyReceives(s, m)
    ensures AnyReady(t, m) == AnyReady(s, m)
    ensures AnyBusy(t, m) == AnyBusy(s, m)
  {
    forall p ensures Receives(t, m, p) == Receives(s, m, p) {}
    assert forall p :: ReadyFor(t, m, p) == ReadyFor(s, m, p);
    assert forall p :: BusyFor(t, m, p) == BusyFor(s, m, p);
  }

  /** Peers keep their eligibility and nobody's backlog shrinks. */
  ghost predicate Grows(s: Rtp, t: Rtp, m: Mcast) {
    && (forall p :: Receives(t, m, p) <==> Receives(s, m, p))
    && (forall p :: BusyFor(s, m, p) ==> BusyFor(t, m, p))
  }

  lemma WakeGrows(s: Rtp, t: Rtp)
    requires WakeInv(s) && FlagsOk(t) && t.pending == s.pending
    requires s.pending != [] ==> Grows(s, t, s.pending[0])
    requires t.waiting == s.waiting && t.backoff == s.backoff && t.retryTimer == s.retryTimer
    requires s.pending != [] && s.onWriteQ ==> t.onWriteQ
    ensures WakeInv(t)
  {
    if s.pending != [] {
      var m := s.pending[0];
      if AnyReceives(s, m) {
        var p :| Receives(s, m, p);
        assert Receives(t, m, p);
      }
      if AnyBusy(s, m) {
        var p :| BusyFor(s, m, p);
        assert BusyFor(t, m, p);
      }
      if AnyReady(t, m) {
        var p :| ReadyFor(t, m, p);
        assert Receives(s, m, p);
        assert BusyFor(s, m, p) ==> BusyFor(t, m, p);
        assert ReadyFor(s, m, p);
      }
    }
  }

  lemma {:induction false} PriorAppend(q: seq<Entry>, e: Entry, n: nat)
    ensures PriorCount(q + [e], n) >= PriorCount(q, n)
  {
    if q != [] {
      PriorAppend(q[1..], e, n);
      assert (q + [e])[1..] == q[1..] + [e];
    }
  }

  /** The backlog depends on the indices only. */
  lemma {:induction false} PriorSame(q: seq<Entry>, r: seq<Entry>, n: nat)
    requires |q| == |r| && forall i :: 0 <= i < |q| ==> q[i].n == r[i].n
    ensures PriorCount(q, n) == PriorCount(r, n)
  {
    if q != [] {
      PriorSame(q[1..], r[1..], n);
    }
  }

  /** One peer changed, without becoming or ceasing to be a receiver. */
  lemma GrowsOne(s: Rtp, t: Rtp, p: PeerId, m: Mcast)
    requires p in t.peers && t.peers == s.peers[p := t.peers[p]]
    requires Eligible(t.peers[p], m.epoch) <==> (p in s.peers && Eligible(s.peers[p], m.epoch))
    requires Eligible(t.peers[p], m.epoch) ==> PriorCount(t.peers[p].queue, m.n) >= PriorCount(s.peers[p].queue, m.n)
    ensures Grows(s, t, m)
  {}

  lemma WakeHead(s: Rtp, p: PeerId, e: Entry)
    requires WakeInv(s) && HasHead(s, p) && e.n == s.peers[p].queue[0].n
    ensures WakeInv(WithHead(s, p, e))
  {
    if s.pending != [] {
      PriorSame(s.peers[p].queue, s.peers[p].queue[0 := e], s.pending[0].n);
      GrowsOne(s, WithHead(s, p, e), p, s.pending[0]);
    }
    WakeGrows(s, WithHead(s, p, e));
  }

  lemma WakeOffer(s: Rtp, p: PeerId, retrans: bool)
    requires WakeInv(s) && HasHead(s, p)
    ensures WakeInv(Offer(s, p, retrans))
  {
    if s.pending != [] {
      GrowsOne(s, Offer(s, p, retrans), p, s.pending[0]);
    }
    WakeGrows(s, Offer(s, p, retrans));
  }

  lemma WakeSend(s: Rtp, p: PeerId, alloc: bool)
    requires WakeInv(s) && p in s.peers
    ensures WakeInv(SendReliably(s, p, alloc))
  {
    var peer := s.peers[p];
    if peer.queue != [] && !Behind(s.pending, peer, peer.queue[0].n) {
      if alloc { WakeOffer(s, p, false); } else { WakeHead(s, p, peer.queue[0].(timer := true)); }
    }
  }

  lemma WakeEnqueue(s: Rtp, p: PeerId, n: nat, alloc: bool)
    requires WakeInv(s) && p in s.peers
    ensures WakeInv(EnqueueUnicast(s, p, n, alloc))
  {
    var t := s.(peers := s.peers[p := s.peers[p].(queue := s.peers[p].queue + [Fresh(n)])]);
    if s.pending != [] {
      PriorAppend(s.peers[p].queue, Fresh(n), s.pending[0].n);
      GrowsOne(s, t, p, s.pending[0]);
    }
    WakeGrows(s, t);
    if s.peers[p].queue == [] { WakeSend(t, p, alloc); }
  }

  lemma WakeSame(s: Rtp, t: Rtp)
    requires WakeInv(s) && t == s.(next := t.next)
    ensures WakeInv(t)
  {
    if s.pending != [] { SameReceivers(s, t, s.pending[0]); }
  }

  lemma WakeHeld(s: Rtp, p: PeerId, more: bool)
    requires WakeInv(s) && p in s.peers
    ensures WakeInv(WithHeld(s, p, more))
  {
    if s.pending != [] { GrowsOne(s, WithHeld(s, p, more), p, s.pending[0]); }
    WakeGrows(s, WithHeld(s, p, more));
  }

  /** A DOWN peer's INIT makes it no receiver of anything. */
  lemma WakeInit(s: Rtp, p: PeerId, alloc: bool)
    requires WakeInv(s) && Enabled(s, SendInit(p, alloc))
    ensures WakeInv(Next(s, SendInit(p, alloc)))
  {
    WakeSame(s, Reserved(s));
    WakeEnqueue(Reserved(s), p, s.next, alloc);
    var s1, t := FlushStep(s, p, alloc), Next(s, SendInit(p, alloc));
    assert s1.peers[p].link == Down;
    if s1.pending != [] { GrowsOne(s1, t, p, s1.pending[0]); }
    WakeGrows(s1, t);
  }

  lemma WakeMulticast(s: Rtp)
    requires WakeInv(s)
    ensures WakeInv(Resume(WithMulticast(s)))
  {
    ResumeWakes(WithMulticast(s));
  }

  lemma WakeAdmit(s: Rtp, fits: bool, alloc: bool)
    requires WakeInv(s) && s.onWriteQ
    ensures WakeInv(AdmitStep(s, fits, alloc))
  {
    var t := AdmitStep(s, fits, alloc);
    match Judge(s, fits, alloc)
    case Cancel => ResumeWakes(s.(pending := s.pending[1..]));
    case Go =>
    case BackOff =>
      SameReceivers(s, t, s.pending[0]);
      if AnyFull(s, s.pending[0]) { FullIsBusy(s, s.pending[0]); }
    case _ =>
      if s.pending != [] { SameReceivers(s, t, s.pending[0]); }
  }

  lemma FullIsBusy(s: Rtp, m: Mcast)
    requires AnyFull(s, m)
    ensures AnyBusy(s, m)
  {
    var p :| Receives(s, m, p) && PriorCount(s.peers[p].queue, m.n) >= RELIABLE_MAX;
    assert BusyFor(s, m, p);
  }

  lemma WakeWire(s: Rtp, ok: bool)
    requires WakeInv(s) && s.obuf != []
    ensures WakeInv(WireStep(s, ok))
  {
    var t := WireStep(s, ok);
    if s.pending != [] {
      var m := s.pending[0];
      forall p | p in s.peers ensures PriorCount(t.peers[p].queue, m.n) == PriorCount(s.peers[p].queue, m.n) {
        PriorSame(t.peers[p].queue, s.peers[p].queue, m.n);
      }
      assert forall p :: Receives(t, m, p) <==> Receives(s, m, p);
      assert Grows(s, t, m);
    }
    WakeGrows(s, t);
  }

  /** An acknowledgment may free a receiver; its wake-up notices. */
  lemma WakeAck(s: Rtp, p: PeerId, alloc: bool)
    requires WakeInv(s) && HasHead(s, p)
    ensures WakeInv(AckStep(s, p, alloc))
  {
    var d := Dequeued(s, p);
    ResumeWakes(d);
    ResumeFrame(d);
    if s.peers[p].link == Pending && s.peers[p].queue[0].n == s.peers[p].init {
      var t := CameUp(Resume(d), p);
      if d.pending != [] {
        GrowsOne(Resume(d), t, p, d.pending[0]);
      }
      WakeGrows(Resume(d), t);
    } else {
      WakeSend(Resume(d), p, alloc);
    }
  }

  lemma WakeDown(s: Rtp, p: PeerId, purge: bool, delete: bool)
    requires FlagsOk(s) && p in s.peers
    ensures WakeInv(DownStep(s, p, purge, delete))
  {
    var s1 := if purge then DropOutput(s, p, 0, false) else s;
    var s2 := s1.(peers := s1.peers[p := WentDown(s1.peers[p])]);
    DropKeeps(s.obuf, p, 0, false);
    ResumeWakes(s2);
    ResumeFrame(s2);
    var s3 := Resume(s2);
    var t := DownStep(s, p, purge, delete);
    if s3.pending != [] {
      assert forall q :: Receives(t, s3.pending[0], q) <==> Receives(s3, s3.pending[0], q);
      assert Grows(s3, t, s3.pending[0]);
    }
    WakeGrows(s3, t);
  }

  lemma WakeTimer(s: Rtp, p: PeerId, alloc: bool)
    requires WakeInv(s) && HasHead(s, p)
    ensures WakeInv(TimerStep(s, p, alloc))
  {
    var h := s.peers[p].queue[0].(timer := false);
    if h.retryQueued {
      WakeHead(s, p, h);
    } else if h.retries >= RETRANS_MAX {
      WakeHead(s, p, h);
      WakeDown(WithHead(s, p, h), p, true, true);
    } else if alloc {
      WakeHead(s, p, h.(retryQueued := true));
      WakeOffer(WithHead(s, p, h.(retryQueued := true)), p, h.sent);
    } else {
      WakeHead(s, p, h.(timer := true));
    }
  }

  lemma StepKeepsWake(s: Rtp, step: Step)
    requires WakeInv(s) && Enabled(s, step)
    ensures WakeInv(Next(s, step))
  {
    match step
    case ReserveElsewhere => WakeSame(s, Reserved(s));
    case NewPeer(p) =>
      if s.pending != [] { GrowsOne(s, Next(s, step), p, s.pending[0]); }
      WakeGrows(s, Next(s, step));
    case SendInit(p, alloc) => WakeInit(s, p, alloc);
    case FlushUnicast(p, alloc) =>
      WakeSame(s, Reserved(s));
      WakeEnqueue(Reserved(s), p, s.next, alloc);
    case HoldSync(p) => WakeHeld(s, p, true);
    case FlushSync(p, more, alloc) =>
      WakeHeld(s, p, more);
      WakeEnqueue(WithHeld(s, p, more), p, s.peers[p].held.value, alloc);
    case FlushMulticast => WakeMulticast(s);
    case Admit(fits, alloc) => WakeAdmit(s, fits, alloc);
    case McastRetry => ResumeWakes(s.(retryTimer := false));
    case WireSend(ok) => WakeWire(s, ok);
    case Ack(p, alloc) => WakeAck(s, p, alloc);
    case RetransTimer(p, alloc) => WakeTimer(s, p, alloc);
    case PeerDown(p, purge, delete) => WakeDown(s, p, purge, delete);
    case InterfaceDown =>
  }

  lemma {:induction false} RunKeepsWake(s: Rtp, steps: seq<Step>)
    requires WakeInv(s) && IsRun(s, steps)
    ensures WakeInv(After(s, steps))
    decreases |steps|
  {
    if steps != [] {
      StepKeepsWake(s, steps[0]);
      RunKeepsWake(Next(s, steps[0]), steps[1..]);
    }
  }

  /** In every reachable state a pending multicast is being served or awaited. */
  lemma MulticastNeverStranded(steps: seq<Step>)
    requires IsRun(INITIAL, steps)
    requires After(INITIAL, steps).pending != []
    ensures Awaited(After(INITIAL, steps))
  {
    RunKeepsWake(INITIAL, steps);
    var s := After(INITIAL, steps);
    if s.waiting {
      forall p | Receives(s, s.pending[0], p) ensures BusyFor(s, s.pending[0], p) {
        assert !ReadyFor(s, s.pending[0], p);
      }
    }
  }
}
