/**
 What each step of the reliable transport puts into the output queue and takes out
 of it, and what it does to the flags of the packets in a reliable queue: when a
 first image is offered, when a retransmission, and when the timer is armed.
 */
module RtpOutput {
  import opened Common
  import opened RtpModel
  import opened RtpOrder
  import opened RtpDelivery

  // ----- what a step means -----

  /** The queue of p gets a new head to send: the first packet of an empty queue,
      or the one behind an acknowledged packet. */
  predicate NewHead(s: Rtp, step: Step, p: PeerId) {
    p in s.peers &&
    match step
    case SendInit(q, _) => q == p && s.peers[p].queue == []
    case FlushUnicast(q, _) => q == p && s.peers[p].queue == []
    case FlushSync(q, _, _) => q == p && s.peers[p].queue == [] && s.peers[p].held.Some?
    case Ack(q, _) => q == p && |s.peers[p].queue| > 1 && !ComesUp(s, step, p)
    case _ => false
  }

  function HeadNumber(s: Rtp, step: Step, p: PeerId): nat
    requires NewHead(s, step, p)
  {
    match step
    case Ack(_, _) => s.peers[p].queue[1].n
    case FlushSync(_, _, _) => s.peers[p].held.value
    case _ => s.next
  }

  function Allocates(step: Step): bool {
    match step
    case SendInit(_, alloc) => alloc
    case FlushUnicast(_, alloc) => alloc
    case FlushSync(_, _, alloc) => alloc
    case Ack(_, alloc) => alloc
    case RetransTimer(_, alloc) => alloc
    case _ => false
  }

  /** No multicast that was reserved earlier is still owed to the peer. */
  predicate MaySend(s: Rtp, step: Step, p: PeerId) {
    NewHead(s, step, p)
    && forall i :: 0 <= i < |s.pending| && Eligible(s.peers[p], s.pending[i].epoch)
         ==> s.pending[i].n >= HeadNumber(s, step, p)
  }

  /** A first image is offered, or for want of memory the timer takes over. */
  predicate Offers(s: Rtp, step: Step, p: PeerId) { MaySend(s, step, p) && Allocates(step) }

  predicate Postpones(s: Rtp, step: Step, p: PeerId) { MaySend(s, step, p) && !Allocates(step) }

  /** The timer of the head fires, and its peer is not given up. */
  predicate Fires(s: Rtp, step: Step, p: PeerId) {
    step.RetransTimer? && step.p == p && HasHead(s, p) && !GivesUp(s, step, p)
  }

  predicate Retries(s: Rtp, step: Step, p: PeerId) {
    Fires(s, step, p) && !s.peers[p].queue[0].retryQueued && Allocates(step)
  }

  /** The wire send of an image of the head of p. */
  predicate Reached(s: Rtp, step: Step, p: PeerId) {
    step.WireSend? && s.obuf != [] && HasHead(s, p)
    && (s.obuf[0].to == ToAll || s.obuf[0].to == ToPeer(p)) && s.obuf[0].n == s.peers[p].queue[0].n
  }

  /** The images that a step takes out: those to a peer whose output is purged, and
      a queued retransmission of an acknowledged packet. */
  predicate TakenOut(s: Rtp, step: Step, image: Image) {
    match step
    case InterfaceDown => true
    case PeerDown(p, purge, _) => purge && image.to == ToPeer(p)
    case RetransTimer(p, _) => GivesUp(s, step, p) && image.to == ToPeer(p)
    case Ack(p, _) => HasHead(s, p) && s.peers[p].queue[0].retryQueued
                      && image == Image(s.peers[p].queue[0].n, ToPeer(p), true)
    case _ => false
  }

  /** The image that a step adds, if any. */
  ghost predicate Adds(s: Rtp, step: Step, image: Image) {
    || (Admits(s, step) && image == Image(s.pending[0].n, ToAll, false))
    || (exists p :: Offers(s, step, p) && image == Image(HeadNumber(s, step, p), ToPeer(p), false))
    || (exists p :: Retries(s, step, p) && image == Image(s.peers[p].queue[0].n, ToPeer(p), s.peers[p].queue[0].sent))
  }

  // ----- the laws -----

  /** The images that are not taken out, in their order. */
  function Staying(s: Rtp, step: Step, obuf: seq<Image>): seq<Image>
    decreases |obuf|
  {
    if obuf == [] then []
    else (if TakenOut(s, step, obuf[0]) then [] else [obuf[0]]) + Staying(s, step, obuf[1..])
  }

  /** What is queued for the wire, what went out on it, and when the interface
      joins or leaves the write queue. */
  ghost predicate OutputLaw(s: Rtp, step: Step, t: Rtp) {
    var stays := Staying(s, step, s.obuf);
    && (step.WireSend? ==> s.obuf != [] && t.obuf == s.obuf[1..])
    && (!step.WireSend? ==>
          if exists image :: Adds(s, step, image) then
            |t.obuf| == |stays| + 1 && t.obuf[..|stays|] == stays && Adds(s, step, t.obuf[|stays|])
          else t.obuf == stays)
    && t.wire == (if step.WireSend? && step.ok && s.obuf != [] then s.wire + [s.obuf[0]] else s.wire)
  }

  /** The head of a queue, and what a step makes of its flags. */
  ghost predicate HeadLaw(s: Rtp, step: Step, t: Rtp, p: PeerId) {
    HasHead(s, p) && HasHead(t, p) && t.peers[p].queue[0].n == s.peers[p].queue[0].n ==>
      var e, e' := s.peers[p].queue[0], t.peers[p].queue[0];
      var again := Reached(s, step, p) && s.obuf[0].retrans;
      var first := Reached(s, step, p) && !s.obuf[0].retrans;
      && (e'.sent <==> e.sent || (first && step.ok))
      && e'.retries == e.retries + (if again && step.ok then 1 else 0)
      && (e'.retryQueued <==> !again && (e.retryQueued || Retries(s, step, p)))
      && (e'.timer <==> if Fires(s, step, p) then !e.retryQueued && !Allocates(step)
                        else e.timer || again || (first && (!step.ok || !e.sent)))
  }

  /** A packet that becomes the head has not been worked on, but its timer is armed
      when it could not be offered. */
  ghost predicate FreshLaw(s: Rtp, step: Step, t: Rtp, p: PeerId) {
    HasHead(t, p) && (!HasHead(s, p) || t.peers[p].queue[0].n != s.peers[p].queue[0].n) ==>
      t.peers[p].queue[0] == Entry(t.peers[p].queue[0].n, false, 0, false, Postpones(s, step, p))
  }

  /** The record of offers. */
  ghost predicate OffersLaw(s: Rtp, step: Step, t: Rtp, p: PeerId) {
    p in s.peers && p in t.peers ==>
      t.peers[p].offers ==
        if GoesDown(s, step, p) then []
        else if Offers(s, step, p) then s.peers[p].offers + [HeadNumber(s, step, p)]
        else if Retries(s, step, p) then s.peers[p].offers + [s.peers[p].queue[0].n]
        else if Admits(s, step) && ReadyFor(s, s.pending[0], p) then s.peers[p].offers + [s.pending[0].n]
        else s.peers[p].offers
  }

  ghost predicate WorkLaw(s: Rtp, step: Step, t: Rtp, p: PeerId) {
    OutputLaw(s, step, t) && HeadLaw(s, step, t, p) && FreshLaw(s, step, t, p) && OffersLaw(s, step, t, p)
  }

  // ----- the proof -----

  lemma {:induction false} AllStay(s: Rtp, step: Step, obuf: seq<Image>)
    requires forall image :: image in obuf ==> !TakenOut(s, step, image)
    ensures Staying(s, step, obuf) == obuf
    decreases |obuf|
  {
    if obuf != [] { AllStay(s, step, obuf[1..]); }
  }

  lemma {:induction false} NoneStays(s: Rtp, step: Step, obuf: seq<Image>)
    requires step.InterfaceDown?
    ensures Staying(s, step, obuf) == []
    decreases |obuf|
  {
    if obuf != [] { NoneStays(s, step, obuf[1..]); }
  }

  lemma {:induction false} DropStays(s: Rtp, step: Step, obuf: seq<Image>, p: PeerId, n: nat, retriesOnly: bool)
    requires forall image :: TakenOut(s, step, image) <==>
                image.to == ToPeer(p) && (retriesOnly ==> image.retrans && image.n == n)
    ensures Staying(s, step, obuf) == Drop(obuf, p, n, retriesOnly)
    decreases |obuf|
  {
    if obuf != [] { DropStays(s, step, obuf[1..], p, n, retriesOnly); }
  }

  /** The output law of a step that adds an image to what stays. */
  lemma Added(s: Rtp, step: Step, t: Rtp, image: Image)
    requires !step.WireSend? && Adds(s, step, image)
    requires t.obuf == Staying(s, step, s.obuf) + [image] && t.wire == s.wire
    ensures OutputLaw(s, step, t)
  {}

  lemma Unadded(s: Rtp, step: Step, t: Rtp)
    requires !step.WireSend? && forall image :: !Adds(s, step, image)
    requires t.obuf == Staying(s, step, s.obuf) && t.wire == s.wire
    ensures OutputLaw(s, step, t)
  {}

  /** Only flushes, acknowledgments and timers have something of their own to send. */
  lemma AddsNothing(s: Rtp, step: Step)
    requires !step.SendInit? && !step.FlushUnicast? && !step.FlushSync? && !step.Ack? && !step.RetransTimer?
    requires !Admits(s, step)
    ensures forall image :: !Adds(s, step, image)
  {}

  ghost predicate PeerWork(s: Rtp, step: Step, t: Rtp, p: PeerId) {
    HeadLaw(s, step, t, p) && FreshLaw(s, step, t, p) && OffersLaw(s, step, t, p)
  }

  predicate IsFor(step: Step) {
    || step.NewPeer? || step.SendInit? || step.FlushUnicast? || step.HoldSync? || step.FlushSync?
    || step.Ack? || step.RetransTimer? || step.PeerDown?
  }

  /** The step is about other peers. */
  predicate Elsewhere(s: Rtp, step: Step, p: PeerId) {
    !step.InterfaceDown? && !step.WireSend? && !step.Admit?
    && (IsFor(step) ==> step.p != p)
  }

  lemma OtherWork(s: Rtp, step: Step, t: Rtp, p: PeerId)
    requires Elsewhere(s, step, p) && (p in t.peers <==> p in s.peers)
    requires p in s.peers ==> t.peers[p] == s.peers[p]
    ensures PeerWork(s, step, t, p)
  {}

  predicate IsFlush(step: Step) { step.SendInit? || step.FlushUnicast? || step.FlushSync? }

  /** A packet joins the queue of q: the step is a flush. */
  lemma EnqueuedOutput(s: Rtp, u: Rtp, step: Step, n: nat)
    requires IsFlush(step) && Enabled(s, step) && step.p in u.peers
    requires u.pending == s.pending && u.obuf == s.obuf && u.wire == s.wire
    requires u.peers[step.p] == s.peers[step.p].(held := u.peers[step.p].held)
    requires s.peers[step.p].queue == [] ==> n == HeadNumber(s, step, step.p)
    ensures OutputLaw(s, step, EnqueueUnicast(u, step.p, n, Allocates(step)))
  {
    var q := step.p;
    var t := EnqueueUnicast(u, q, n, Allocates(step));
    AllStay(s, step, s.obuf);
    EnqueuedHead(u, q, n, Allocates(step));
    if Offers(s, step, q) {
      Added(s, step, t, Image(n, ToPeer(q), false));
    } else {
      assert forall p :: p != q ==> !Offers(s, step, p);
      Unadded(s, step, t);
    }
  }

  /** What a flush does to its peer, in three cases. */
  lemma EnqueuedHead(u: Rtp, q: PeerId, n: nat, alloc: bool)
    requires q in u.peers
    ensures var t := EnqueueUnicast(u, q, n, alloc);
            var peer := u.peers[q];
            var blocked := Behind(u.pending, peer, n);
            && t.wire == u.wire
            && (peer.queue != [] || blocked ==>
                  t.obuf == u.obuf && t.peers[q] == peer.(queue := peer.queue + [Fresh(n)]))
            && (peer.queue == [] && !blocked && alloc ==>
                  t.obuf == u.obuf + [Image(n, ToPeer(q), false)]
                  && t.peers[q] == peer.(queue := [Fresh(n)], offers := peer.offers + [n]))
            && (peer.queue == [] && !blocked && !alloc ==>
                  t.obuf == u.obuf && t.peers[q] == peer.(queue := [Fresh(n).(timer := true)]))
  {
    var peer := u.peers[q];
    var u' := u.(peers := u.peers[q := peer.(queue := peer.queue + [Fresh(n)])]);
    assert peer.queue == [] ==> u'.peers[q].queue == [Fresh(n)];
    assert Behind(u.pending, u'.peers[q], n) == Behind(u.pending, peer, n);
    assert [Fresh(n)][0 := Fresh(n).(timer := true)] == [Fresh(n).(timer := true)];
  }

  lemma EnqueuedPeer(s: Rtp, u: Rtp, step: Step, n: nat)
    requires IsFlush(step) && Enabled(s, step) && step.p in u.peers && u.pending == s.pending
    requires u.peers[step.p] == s.peers[step.p].(held := u.peers[step.p].held)
    requires s.peers[step.p].queue == [] ==> n == HeadNumber(s, step, step.p)
    ensures PeerWork(s, step, EnqueueUnicast(u, step.p, n, Allocates(step)), step.p)
  {
    var q := step.p;
    var peer := s.peers[q];
    EnqueuedHead(u, q, n, Allocates(step));
    assert peer.queue != [] ==> (peer.queue + [Fresh(n)])[0] == peer.queue[0];
    assert peer.queue == [] ==> (peer.queue + [Fresh(n)])[0] == Fresh(n);
    assert peer.queue == [] ==> (MaySend(s, step, q) <==> !Behind(s.pending, peer, n));
    assert Behind(u.pending, u.peers[q], n) == Behind(s.pending, peer, n);
  }

  lemma FlushedWork(s: Rtp, u: Rtp, step: Step, n: nat, p: PeerId)
    requires IsFlush(step) && Enabled(s, step) && step.p in u.peers
    requires u.pending == s.pending && u.obuf == s.obuf && u.wire == s.wire
    requires u.peers == s.peers[step.p := s.peers[step.p].(held := u.peers[step.p].held)]
    requires s.peers[step.p].queue == [] ==> n == HeadNumber(s, step, step.p)
    ensures WorkLaw(s, step, EnqueueUnicast(u, step.p, n, Allocates(step)), p)
  {
    EnqueuedOutput(s, u, step, n);
    if p == step.p {
      EnqueuedPeer(s, u, step, n);
    } else {
      EnqueuedHolds(u, step.p, n, Allocates(step), 0);
      OtherWork(s, step, EnqueueUnicast(u, step.p, n, Allocates(step)), p);
    }
  }

  lemma InitWork(s: Rtp, q: PeerId, alloc: bool, p: PeerId)
    requires Enabled(s, SendInit(q, alloc))
    ensures WorkLaw(s, SendInit(q, alloc), Next(s, SendInit(q, alloc)), p)
  {
    FlushedWork(s, Reserved(s), SendInit(q, alloc), s.next, p);
    EnqueuedHolds(Reserved(s), q, s.next, alloc, 0);
    StartedWork(s, SendInit(q, alloc), FlushStep(s, q, alloc), q, s.next, p);
  }

  /** Entering PENDING is no work. */
  lemma StartedWork(s: Rtp, step: Step, t: Rtp, q: PeerId, n: nat, p: PeerId)
    requires q in t.peers && WorkLaw(s, step, t, p)
    ensures WorkLaw(s, step, Started(t, q, n), p)
  {
    var u := Started(t, q, n);
    assert u.obuf == t.obuf && u.wire == t.wire;
    assert p in t.peers ==> u.peers[p].queue == t.peers[p].queue && u.peers[p].offers == t.peers[p].offers;
  }

  lemma FlushWork(s: Rtp, step: Step, p: PeerId)
    requires Enabled(s, step) && (step.FlushUnicast? || step.FlushSync?)
    ensures WorkLaw(s, step, Next(s, step), p)
  {
    match step
    case FlushUnicast(q, alloc) => FlushedWork(s, Reserved(s), step, s.next, p);
    case FlushSync(q, more, alloc) => FlushedWork(s, WithHeld(s, q, more), step, s.peers[q].held.value, p);
  }

  lemma CopiedPeer(s: Rtp, fits: bool, alloc: bool, p: PeerId)
    requires RtpInv(s, false) && s.pending != [] && Judge(s, fits, alloc) == Go
    ensures PeerWork(s, Admit(fits, alloc), Admitted(s), p)
  {
    var m := s.pending[0];
    if p in s.peers && Eligible(s.peers[p], m.epoch) {
      ReceiverHead(s, p);
      CopiedReceiver(s, fits, alloc, p);
    } else {
      PassedOver(s, fits, alloc, Admitted(s), p);
    }
  }

  lemma ReceiverHead(s: Rtp, p: PeerId)
    requires RtpInv(s, false) && s.pending != [] && Receives(s, s.pending[0], p)
    ensures HasHead(s, p) ==> s.peers[p].queue[0].n != s.pending[0].n
  {
    assert PeerOk(p, s.peers[p], s, false);
    assert Unclaimed(p, s.peers[p], s.pending[0], s.obuf);
  }

  /** An attempt leaves alone whoever gets no copy. */
  lemma PassedOver(s: Rtp, fits: bool, alloc: bool, t: Rtp, p: PeerId)
    requires p in t.peers <==> p in s.peers
    requires p in s.peers ==> t.peers[p] == s.peers[p]
    requires !Admits(s, Admit(fits, alloc)) || !Receives(s, s.pending[0], p)
    ensures PeerWork(s, Admit(fits, alloc), t, p)
  {}

  lemma CopiedReceiver(s: Rtp, fits: bool, alloc: bool, p: PeerId)
    requires s.pending != [] && Judge(s, fits, alloc) == Go && Receives(s, s.pending[0], p)
    requires var q, n := s.peers[p].queue, s.pending[0].n; PriorCount(q, n) == 0 && q != [] ==> q[0].n != n
    ensures PeerWork(s, Admit(fits, alloc), Admitted(s), p)
  {
    CopyHead(s.peers[p], s.pending[0].n);
    assert Admitted(s).peers[p] == WithCopy(s.peers[p], s.pending[0].n);
  }

  /** A copy goes to the front of a ready peer, and behind the head of a busy one. */
  lemma CopyHead(peer: Peer, n: nat)
    ensures var q := WithCopy(peer, n).queue;
            && q != []
            && (PriorCount(peer.queue, n) == 0 ==> q[0] == Fresh(n))
            && (PriorCount(peer.queue, n) > 0 ==> peer.queue != [] && q[0] == peer.queue[0])
  {
    InsertIndex(peer.queue, Fresh(n));
  }

  lemma NotAdmittedWork(s: Rtp, fits: bool, alloc: bool, t: Rtp, p: PeerId)
    requires !Admits(s, Admit(fits, alloc))
    requires t.peers == s.peers && t.obuf == s.obuf && t.wire == s.wire
    ensures WorkLaw(s, Admit(fits, alloc), t, p)
  {
    var step := Admit(fits, alloc);
    AllStay(s, step, s.obuf);
    AddsNothing(s, step);
    Unadded(s, step, t);
    PassedOver(s, fits, alloc, t, p);
  }

  lemma AdmittedOutput(s: Rtp, fits: bool, alloc: bool)
    requires s.pending != [] && Judge(s, fits, alloc) == Go
    ensures OutputLaw(s, Admit(fits, alloc), Admitted(s))
  {
    AllStay(s, Admit(fits, alloc), s.obuf);
    Added(s, Admit(fits, alloc), Admitted(s), Image(s.pending[0].n, ToAll, false));
  }

  lemma AdmitWork(s: Rtp, fits: bool, alloc: bool, p: PeerId)
    requires RtpInv(s, false) && s.pending != []
    ensures WorkLaw(s, Admit(fits, alloc), AdmitStep(s, fits, alloc), p)
  {
    if Judge(s, fits, alloc) == Go {
      CopiedPeer(s, fits, alloc, p);
      AdmittedOutput(s, fits, alloc);
    } else {
      ResumeFrame(s.(pending := s.pending[1..]));
      NotAdmittedWork(s, fits, alloc, AdmitStep(s, fits, alloc), p);
    }
  }

  lemma WireWork(s: Rtp, ok: bool, p: PeerId)
    requires s.obuf != []
    ensures WorkLaw(s, WireSend(ok), WireStep(s, ok), p)
  {}

  /** Steps that leave queues and output alone. */
  lemma IdleWork(s: Rtp, step: Step, t: Rtp, p: PeerId)
    requires step.ReserveElsewhere? || step.FlushMulticast? || step.McastRetry? || step.NewPeer? || step.HoldSync?
    requires t.obuf == s.obuf && t.wire == s.wire
    requires p in s.peers ==> p in t.peers && t.peers[p] == s.peers[p].(held := t.peers[p].held)
    requires p !in s.peers && p in t.peers ==> t.peers[p].queue == []
    ensures WorkLaw(s, step, t, p)
  {
    AllStay(s, step, s.obuf);
    AddsNothing(s, step);
    Unadded(s, step, t);
  }

  lemma IdleStepWork(s: Rtp, step: Step, p: PeerId)
    requires Enabled(s, step)
    requires step.ReserveElsewhere? || step.FlushMulticast? || step.McastRetry? || step.NewPeer? || step.HoldSync?
    ensures WorkLaw(s, step, Next(s, step), p)
  {
    ResumeFrame(WithMulticast(s));
    ResumeFrame(s.(retryTimer := false));
    IdleWork(s, step, Next(s, step), p);
  }

  lemma ClearedWork(s: Rtp, p: PeerId)
    ensures WorkLaw(s, InterfaceDown, Cleared(s), p)
  {
    NoneStays(s, InterfaceDown, s.obuf);
    AddsNothing(s, InterfaceDown);
    Unadded(s, InterfaceDown, Cleared(s));
  }

  lemma DownWork(s: Rtp, step: Step, u: Rtp, q: PeerId, purge: bool, delete: bool, p: PeerId)
    requires q in s.peers && q in u.peers && u == s.(peers := s.peers[q := u.peers[q]])
    requires step == PeerDown(q, purge, delete) || (step.RetransTimer? && GivesUp(s, step, q) && delete && purge)
    ensures WorkLaw(s, step, DownStep(u, q, purge, delete), p)
  {
    var t := DownStep(u, q, purge, delete);
    var u1 := if purge then DropOutput(u, q, 0, false) else u;
    ResumeFrame(u1.(peers := u1.peers[q := WentDown(u1.peers[q])]));
    if purge { DropStays(s, step, s.obuf, q, 0, false); } else { AllStay(s, step, s.obuf); }
    Unadded(s, step, t);
    if p != q { OtherWork(s, step, t, p); }
  }

  /** What the timer does to its peer, in three cases. */
  lemma FiredHead(s: Rtp, q: PeerId, alloc: bool)
    requires HasHead(s, q) && !GivesUp(s, RetransTimer(q, alloc), q)
    ensures var t, peer := TimerStep(s, q, alloc), s.peers[q];
            var head := peer.queue[0];
            var retries := !head.retryQueued && alloc;
            && t.wire == s.wire && t.peers.Keys == s.peers.Keys
            && (forall p :: p in s.peers && p != q ==> t.peers[p] == s.peers[p])
            && t.obuf == (if retries then s.obuf + [Image(head.n, ToPeer(q), head.sent)] else s.obuf)
            && t.peers[q] == peer.(queue := peer.queue[0 := head.(timer := !head.retryQueued && !alloc,
                                                                  retryQueued := head.retryQueued || alloc)],
                                   offers := if retries then peer.offers + [head.n] else peer.offers)
  {}

  lemma FiresWork(s: Rtp, q: PeerId, alloc: bool, p: PeerId)
    requires HasHead(s, q) && !GivesUp(s, RetransTimer(q, alloc), q)
    ensures WorkLaw(s, RetransTimer(q, alloc), TimerStep(s, q, alloc), p)
  {
    var step, t := RetransTimer(q, alloc), TimerStep(s, q, alloc);
    FiredHead(s, q, alloc);
    AllStay(s, step, s.obuf);
    if p != q { OtherWork(s, step, t, p); }
    if Retries(s, step, q) {
      Added(s, step, t, Image(s.peers[q].queue[0].n, ToPeer(q), s.peers[q].queue[0].sent));
    } else {
      Unadded(s, step, t);
    }
  }

  lemma TimerWork(s: Rtp, q: PeerId, alloc: bool, p: PeerId)
    requires HasHead(s, q)
    ensures WorkLaw(s, RetransTimer(q, alloc), TimerStep(s, q, alloc), p)
  {
    if GivesUp(s, RetransTimer(q, alloc), q) {
      DownWork(s, RetransTimer(q, alloc), WithHead(s, q, s.peers[q].queue[0].(timer := false)), q, true, true, p);
    } else {
      FiresWork(s, q, alloc, p);
    }
  }

  /** After the acknowledged head left, before the next is sent. */
  lemma DequeuedOutput(s: Rtp, q: PeerId, alloc: bool)
    requires HasHead(s, q)
    ensures Dequeued(s, q).obuf == Staying(s, Ack(q, alloc), s.obuf)
  {
    var head := s.peers[q].queue[0];
    if head.retryQueued {
      DropStays(s, Ack(q, alloc), s.obuf, q, head.n, true);
    } else {
      AllStay(s, Ack(q, alloc), s.obuf);
    }
  }

  /** What sending the head does, in three cases. */
  lemma SentHead(u: Rtp, q: PeerId, alloc: bool)
    requires HasHead(u, q)
    ensures var t, peer := SendReliably(u, q, alloc), u.peers[q];
            var blocked := Behind(u.pending, peer, peer.queue[0].n);
            && t.wire == u.wire && t.peers.Keys == u.peers.Keys
            && (forall p :: p in u.peers && p != q ==> t.peers[p] == u.peers[p])
            && t.obuf == (if !blocked && alloc then u.obuf + [Image(peer.queue[0].n, ToPeer(q), false)] else u.obuf)
            && t.peers[q] ==
                 if blocked then peer
                 else if alloc then peer.(offers := peer.offers + [peer.queue[0].n])
                 else peer.(queue := peer.queue[0 := peer.queue[0].(timer := true)])
  {}

  lemma AckFrame(s: Rtp, q: PeerId, alloc: bool)
    requires HasHead(s, q)
    ensures var u := Acked(s, q);
            && u.wire == s.wire && u.pending == s.pending && u.obuf == Staying(s, Ack(q, alloc), s.obuf)
            && u.peers.Keys == s.peers.Keys
            && (forall p :: p in s.peers && p != q ==> u.peers[p] == s.peers[p])
            && u.peers[q].queue == s.peers[q].queue[1..] && u.peers[q].offers == s.peers[q].offers
            && (!ComesUp(s, Ack(q, alloc), q) ==>
                  u.peers[q].link == s.peers[q].link && u.peers[q].epoch == s.peers[q].epoch)
  {
    var u := Dequeued(s, q);
    DequeuedOutput(s, q, alloc);
    DequeuedFrame(s, q);
    ResumeFrame(u);
    assert Resume(u).peers == u.peers && Resume(u).obuf == u.obuf && Resume(u).wire == u.wire;
  }

  lemma DequeuedFrame(s: Rtp, q: PeerId)
    requires HasHead(s, q)
    ensures var u := Dequeued(s, q);
            && u.wire == s.wire && u.pending == s.pending
            && u.peers == s.peers[q := s.peers[q].(queue := s.peers[q].queue[1..])]
  {}

  /** A peer that comes UP has nothing else queued. */
  lemma UpWork(s: Rtp, q: PeerId, alloc: bool, p: PeerId)
    requires RtpInv(s, false) && HasHead(s, q) && ComesUp(s, Ack(q, alloc), q)
    ensures WorkLaw(s, Ack(q, alloc), AckStep(s, q, alloc), p)
  {
    assert PeerOk(q, s.peers[q], s, false);
    AckFrame(s, q, alloc);
    assert AckStep(s, q, alloc) == Acked(s, q);
    Unadded(s, Ack(q, alloc), Acked(s, q));
    if p != q { OtherWork(s, Ack(q, alloc), Acked(s, q), p); }
  }

  lemma NextHeadPeer(s: Rtp, q: PeerId, alloc: bool)
    requires HasHead(s, q) && !ComesUp(s, Ack(q, alloc), q) && |s.peers[q].queue| > 1
    requires QueueOk(s.peers[q], s.next, s.epoch)
    ensures PeerWork(s, Ack(q, alloc), SendReliably(Acked(s, q), q, alloc), q)
  {
    AckFrame(s, q, alloc);
    NextHeadIs(s, q, alloc);
    SentHead(Acked(s, q), q, alloc);
  }

  lemma NextHeadWork(s: Rtp, q: PeerId, alloc: bool, p: PeerId)
    requires RtpInv(s, false) && HasHead(s, q) && !ComesUp(s, Ack(q, alloc), q) && |s.peers[q].queue| > 1
    ensures WorkLaw(s, Ack(q, alloc), AckStep(s, q, alloc), p)
  {
    var t := SendReliably(Acked(s, q), q, alloc);
    assert PeerOk(q, s.peers[q], s, false);
    assert AckStep(s, q, alloc) == t;
    AckFrame(s, q, alloc);
    SentHead(Acked(s, q), q, alloc);
    NextHeadIs(s, q, alloc);
    NextHeadOutput(s, q, alloc, t);
    if p == q { NextHeadPeer(s, q, alloc); } else { OtherWork(s, Ack(q, alloc), t, p); }
  }

  lemma NextHeadIs(s: Rtp, q: PeerId, alloc: bool)
    requires HasHead(s, q) && !ComesUp(s, Ack(q, alloc), q) && |s.peers[q].queue| > 1
    requires QueueOk(s.peers[q], s.next, s.epoch)
    ensures var u := Acked(s, q);
            && u.peers[q].queue[0] == Fresh(s.peers[q].queue[1].n)
            && u.peers[q].queue[0].n != s.peers[q].queue[0].n
            && (MaySend(s, Ack(q, alloc), q) <==> !Behind(u.pending, u.peers[q], u.peers[q].queue[0].n))
  {
    AckFrame(s, q, alloc);
  }

  lemma NextHeadOutput(s: Rtp, q: PeerId, alloc: bool, t: Rtp)
    requires HasHead(s, q) && NewHead(s, Ack(q, alloc), q) && t.wire == s.wire
    requires t.obuf == if Offers(s, Ack(q, alloc), q)
                       then Staying(s, Ack(q, alloc), s.obuf) + [Image(s.peers[q].queue[1].n, ToPeer(q), false)]
                       else Staying(s, Ack(q, alloc), s.obuf)
    ensures OutputLaw(s, Ack(q, alloc), t)
  {
    if Offers(s, Ack(q, alloc), q) {
      Added(s, Ack(q, alloc), t, Image(s.peers[q].queue[1].n, ToPeer(q), false));
    } else {
      Unadded(s, Ack(q, alloc), t);
    }
  }

  lemma LastHeadWork(s: Rtp, q: PeerId, alloc: bool, p: PeerId)
    requires HasHead(s, q) && !ComesUp(s, Ack(q, alloc), q) && |s.peers[q].queue| == 1
    ensures WorkLaw(s, Ack(q, alloc), AckStep(s, q, alloc), p)
  {
    AckFrame(s, q, alloc);
    assert AckStep(s, q, alloc) == Acked(s, q);
    Unadded(s, Ack(q, alloc), Acked(s, q));
    if p != q { OtherWork(s, Ack(q, alloc), Acked(s, q), p); }
  }

  lemma AckWork(s: Rtp, q: PeerId, alloc: bool, p: PeerId)
    requires RtpInv(s, false) && HasHead(s, q)
    ensures WorkLaw(s, Ack(q, alloc), AckStep(s, q, alloc), p)
  {
    if ComesUp(s, Ack(q, alloc), q) { UpWork(s, q, alloc, p); }
    else if |s.peers[q].queue| > 1 { NextHeadWork(s, q, alloc, p); }
    else { LastHeadWork(s, q, alloc, p); }
  }

  /** Every step obeys the laws of output for every peer. */
  lemma StepWorks(s: Rtp, step: Step, p: PeerId)
    requires RtpInv(s, false) && Enabled(s, step)
    ensures WorkLaw(s, step, Next(s, step), p)
  {
    match step
    case Admit(fits, alloc) => AdmitWork(s, fits, alloc, p);
    case WireSend(ok) => WireWork(s, ok, p);
    case Ack(q, alloc) => AckWork(s, q, alloc, p);
    case RetransTimer(q, alloc) => TimerWork(s, q, alloc, p);
    case PeerDown(q, purge, delete) => DownWork(s, step, s, q, purge, delete, p);
    case InterfaceDown => ClearedWork(s, p);
    case SendInit(q, alloc) => InitWork(s, q, alloc, p);
    case FlushUnicast(_, _) => FlushWork(s, step, p);
    case FlushSync(_, _, _) => FlushWork(s, step, p);
    case _ => IdleStepWork(s, step, p);
  }

  // ----- the write queue -----

  /** An interface with output is on the write queue, after every run. */
  lemma StepKeepsListed(s: Rtp, step: Step)
    requires Enabled(s, step) && (s.obuf != [] ==> s.onWriteQ)
    ensures Next(s, step).obuf != [] ==> Next(s, step).onWriteQ
  {
    match step
    case Ack(p, alloc) => AckListed(s, p, alloc);
    case PeerDown(p, purge, delete) => DownListed(s, p, purge, delete);
    case RetransTimer(p, alloc) => TimerListed(s, p, alloc);
    case FlushMulticast => WakeListed(WithMulticast(s));
    case McastRetry => WakeListed(s.(retryTimer := false));
    case Admit(_, _) => WakeListed(s.(pending := s.pending[1..]));
    case SendInit(p, alloc) => EnqueueListed(Reserved(s), p, s.next, alloc);
    case FlushUnicast(p, alloc) => EnqueueListed(Reserved(s), p, s.next, alloc);
    case FlushSync(p, more, alloc) => EnqueueListed(WithHeld(s, p, more), p, s.peers[p].held.value, alloc);
    case _ =>
  }

  lemma EnqueueListed(s: Rtp, p: PeerId, n: nat, alloc: bool)
    requires p in s.peers && (s.obuf != [] ==> s.onWriteQ)
    ensures EnqueueUnicast(s, p, n, alloc).obuf != [] ==> EnqueueUnicast(s, p, n, alloc).onWriteQ
  {}

  lemma WakeListed(s: Rtp)
    requires s.obuf != [] ==> s.onWriteQ
    ensures Resume(s).obuf != [] ==> Resume(s).onWriteQ
  {
    ResumeFrame(s);
    WakeUpIs(s);
  }

  lemma AckListed(s: Rtp, p: PeerId, alloc: bool)
    requires HasHead(s, p) && (s.obuf != [] ==> s.onWriteQ)
    ensures AckStep(s, p, alloc).obuf != [] ==> AckStep(s, p, alloc).onWriteQ
  {
    WakeListed(Dequeued(s, p));
  }

  lemma DownListed(s: Rtp, p: PeerId, purge: bool, delete: bool)
    requires p in s.peers && (s.obuf != [] ==> s.onWriteQ)
    ensures DownStep(s, p, purge, delete).obuf != [] ==> DownStep(s, p, purge, delete).onWriteQ
  {
    var s1 := if purge then DropOutput(s, p, 0, false) else s;
    WakeListed(s1.(peers := s1.peers[p := WentDown(s1.peers[p])]));
  }

  lemma TimerListed(s: Rtp, p: PeerId, alloc: bool)
    requires HasHead(s, p) && (s.obuf != [] ==> s.onWriteQ)
    ensures TimerStep(s, p, alloc).obuf != [] ==> TimerStep(s, p, alloc).onWriteQ
  {
    DownListed(WithHead(s, p, s.peers[p].queue[0].(timer := false)), p, true, true);
  }

  lemma {:induction false} OutputIsListed(s: Rtp, steps: seq<Step>)
    requires IsRun(s, steps) && (s.obuf != [] ==> s.onWriteQ)
    ensures After(s, steps).obuf != [] ==> After(s, steps).onWriteQ
    decreases |steps|
  {
    if steps != [] {
      StepKeepsListed(s, steps[0]);
      OutputIsListed(Next(s, steps[0]), steps[1..]);
    }
  }
}
