/**
 The reliable transport of one interface as a step system: per-neighbor reliable
 queues, the deferred-multicast queue, the output queue and the wake-up flags.

 Packets are named by their reservation index (module `Serial`); the imperative
 code in module `RtpTransmit` compares wire sequence numbers instead and is
 proved to compute these functions. Queues are listed oldest first, the order
 in which `tail`/`previous` walk them.
 */
module RtpModel {
  import opened Common

  type PeerId = nat

  const RETRANS_MAX: nat := 16   // EIGRP_TRANSPORT_RETRANS_MAX
  const RELIABLE_MAX: nat := 4   // EIGRP_MULTICAST_RELIABLE_MAX

  datatype Link = Down | Pending | Up

  /** A packet in a reliable queue: whether its first wire send happened
      (`sent_msec != 0`), its successful retransmissions, `retry_queued`, and
      whether its retransmit timer is armed. */
  datatype Entry = Entry(n: nat, sent: bool, retries: nat, retryQueued: bool, timer: bool)

  /** A neighbor. `held` is the partly built table-synchronization packet, whose
      sequence is reserved but which is not queued yet. `offers` is history: the
      indices put into the output queue for this peer since it last left DOWN. */
  datatype Peer = Peer(link: Link, epoch: nat, queue: seq<Entry>, init: nat, held: Option<nat>,
                       offers: seq<nat>)

  /** An encoded multicast waiting for admission, with its epoch cutoff. */
  datatype Mcast = Mcast(n: nat, epoch: nat)

  datatype Target = ToPeer(peer: PeerId) | ToAll

  /** A reliable wire image in the interface output queue. */
  datatype Image = Image(n: nat, to: Target, retrans: bool)

  /** `wire` is history: the images the host accepted. */
  datatype Rtp = Rtp(peers: map<PeerId, Peer>, pending: seq<Mcast>, obuf: seq<Image>,
                     epoch: nat, next: nat, backoff: bool, waiting: bool, retryTimer: bool,
                     onWriteQ: bool, wire: seq<Image>)

  datatype Step =
    | ReserveElsewhere
    | NewPeer(p: PeerId)
    | SendInit(p: PeerId, alloc: bool)
    | FlushUnicast(p: PeerId, alloc: bool)
    | HoldSync(p: PeerId)
    | FlushSync(p: PeerId, more: bool, alloc: bool)
    | FlushMulticast
    | Admit(fits: bool, alloc: bool)
    | McastRetry
    | WireSend(ok: bool)
    | Ack(p: PeerId, alloc: bool)
    | RetransTimer(p: PeerId, alloc: bool)
    | PeerDown(p: PeerId, purge: bool, delete: bool)
    | InterfaceDown

  const NEW_PEER := Peer(Down, 0, [], 0, None, [])

  const INITIAL := Rtp(map[], [], [], 0, 1, false, false, false, false, [])

  function Fresh(n: nat): Entry {
    Entry(n, false, 0, false, false)
  }

  /** `eigrp_packet_multicast_peer_eligible` */
  predicate Eligible(peer: Peer, epoch: nat) {
    peer.link == Up && peer.epoch != 0 && peer.epoch <= epoch
  }

  /** `eigrp_packet_reliable_prior_count`: the walk stops at the first packet
      that is not older than index n. */
  function PriorCount(q: seq<Entry>, n: nat): nat {
    if q == [] || q[0].n >= n then 0 else 1 + PriorCount(q[1..], n)
  }

  /** `eigrp_packet_reliable_ordered_enqueue` */
  function Insert(q: seq<Entry>, e: Entry): seq<Entry> {
    if q == [] then [e]
    else if q[0].n < e.n then [q[0]] + Insert(q[1..], e)
    else [e] + q
  }

  /** `eigrp_packet_unicast_behind_multicast`: an earlier multicast is still
      pending for this adjacency. */
  predicate Behind(pending: seq<Mcast>, peer: Peer, n: nat) {
    exists i :: 0 <= i < |pending| && pending[i].n < n && Eligible(peer, pending[i].epoch)
  }

  predicate HasHead(s: Rtp, p: PeerId) {
    p in s.peers && s.peers[p].queue != []
  }

  predicate Receives(s: Rtp, m: Mcast, p: PeerId) {
    p in s.peers && Eligible(s.peers[p], m.epoch)
  }

  predicate BusyFor(s: Rtp, m: Mcast, p: PeerId) {
    Receives(s, m, p) && PriorCount(s.peers[p].queue, m.n) > 0
  }

  predicate ReadyFor(s: Rtp, m: Mcast, p: PeerId) {
    Receives(s, m, p) && PriorCount(s.peers[p].queue, m.n) == 0
  }

  ghost predicate AnyReceives(s: Rtp, m: Mcast) { exists p :: Receives(s, m, p) }

  ghost predicate AnyBusy(s: Rtp, m: Mcast) { exists p :: BusyFor(s, m, p) }

  ghost predicate AnyReady(s: Rtp, m: Mcast) { exists p :: ReadyFor(s, m, p) }

  ghost predicate AnyFull(s: Rtp, m: Mcast) {
    exists p :: Receives(s, m, p) && PriorCount(s.peers[p].queue, m.n) >= RELIABLE_MAX
  }

  /** `eigrp_packet_multicast_resume` */
  ghost function Resume(s: Rtp): Rtp {
    if s.pending == [] || s.retryTimer then s
    else
      var m := s.pending[0];
      if s.backoff && AnyBusy(s, m) then s
      else if s.waiting && AnyReceives(s, m) && !AnyReady(s, m) then s.(backoff := false)
      else s.(backoff := false, waiting := false, onWriteQ := true)
  }

  /** `eigrp_packet_multicast_reliable_enqueue`, before its wake-up. */
  function WithMulticast(s: Rtp): Rtp {
    s.(next := s.next + 1, pending := s.pending + [Mcast(s.next, s.epoch)])
  }

  /** A peer's copy of an admitted multicast: a ready peer is offered it at once. */
  function WithCopy(peer: Peer, n: nat): Peer {
    peer.(queue := Insert(peer.queue, Fresh(n)),
          offers := if PriorCount(peer.queue, n) == 0 then peer.offers + [n] else peer.offers)
  }

  /** One copy to each eligible peer and to nobody else. */
  function Copied(peers: map<PeerId, Peer>, m: Mcast): (r: map<PeerId, Peer>)
    ensures r.Keys == peers.Keys
  {
    map p | p in peers :: if Eligible(peers[p], m.epoch) then WithCopy(peers[p], m.n) else peers[p]
  }

  /** The oldest pending multicast goes to the eligible peers, and its image
      into the output queue. */
  function Admitted(s: Rtp): Rtp
    requires s.pending != []
  {
    var m := s.pending[0];
    s.(peers := Copied(s.peers, m),
       pending := s.pending[1..],
       obuf := s.obuf + [Image(m.n, ToAll, false)],
       onWriteQ := true)
  }

  datatype Verdict = Blocked | BackOff | Cancel | Wait | Delay | Go

  /** What `eigrp_packet_multicast_admit` decides about the oldest multicast;
      `fits` is the CR Hello's size check, `alloc` the outcome of all allocations. */
  ghost function Judge(s: Rtp, fits: bool, alloc: bool): Verdict {
    if s.backoff || s.waiting || s.retryTimer || s.pending == [] then Blocked
    else
      var m := s.pending[0];
      if AnyFull(s, m) then BackOff
      else if !AnyReceives(s, m) then Cancel
      else if !AnyReady(s, m) then Wait
      else if AnyBusy(s, m) && !fits then BackOff
      else if !alloc then Delay
      else Go
  }

  /** `eigrp_packet_multicast_admit` */
  ghost function AdmitStep(s: Rtp, fits: bool, alloc: bool): Rtp {
    match Judge(s, fits, alloc)
    case Blocked => s
    case BackOff => s.(backoff := true)
    case Cancel => Resume(s.(pending := s.pending[1..]))
    case Wait => s.(waiting := true)
    case Delay => s.(retryTimer := true)
    case Go => Admitted(s)
  }

  /** Put an image of peer p's head into the output queue. */
  function Offer(s: Rtp, p: PeerId, retrans: bool): Rtp
    requires p in s.peers && s.peers[p].queue != []
  {
    var peer := s.peers[p];
    s.(peers := s.peers[p := peer.(offers := peer.offers + [peer.queue[0].n])],
       obuf := s.obuf + [Image(peer.queue[0].n, ToPeer(p), retrans)],
       onWriteQ := true)
  }

  function WithHead(s: Rtp, p: PeerId, e: Entry): Rtp
    requires p in s.peers && s.peers[p].queue != []
  {
    s.(peers := s.peers[p := s.peers[p].(queue := s.peers[p].queue[0 := e])])
  }

  /** `eigrp_packet_send_reliably`; `alloc` is the outcome of the duplicate's
      allocation, a failure of which arms the head's timer. */
  function SendReliably(s: Rtp, p: PeerId, alloc: bool): Rtp
    requires p in s.peers
  {
    var peer := s.peers[p];
    if peer.queue == [] || Behind(s.pending, peer, peer.queue[0].n) then s
    else if !alloc then WithHead(s, p, peer.queue[0].(timer := true))
    else Offer(s, p, false)
  }

  /** Queue packet n behind everything else, and send it if it is alone
      (`eigrp_packetizer_builder_flush`, `eigrp_update_neighbor_packet_queue`). */
  function EnqueueUnicast(s: Rtp, p: PeerId, n: nat, alloc: bool): Rtp
    requires p in s.peers
  {
    var peer := s.peers[p];
    var s' := s.(peers := s.peers[p := peer.(queue := peer.queue + [Fresh(n)])]);
    if peer.queue == [] then SendReliably(s', p, alloc) else s'
  }

  function Reserved(s: Rtp): Rtp {
    s.(next := s.next + 1)
  }

  /** A packet built and queued in one go: its sequence is the newest. */
  function FlushStep(s: Rtp, p: PeerId, alloc: bool): Rtp
    requires p in s.peers
  {
    EnqueueUnicast(Reserved(s), p, s.next, alloc)
  }

  /** Start (or end) a partly built synchronization packet: its sequence is
      reserved now (`eigrp_update_neighbor_packet_create`). */
  function WithHeld(s: Rtp, p: PeerId, more: bool): Rtp
    requires p in s.peers
  {
    s.(next := if more then s.next + 1 else s.next,
       peers := s.peers[p := s.peers[p].(held := if more then Some(s.next) else None)])
  }

  /** The held packet is queued like any other, and maybe another one started. */
  function SyncStep(s: Rtp, p: PeerId, more: bool, alloc: bool): Rtp
    requires p in s.peers && s.peers[p].held.Some?
  {
    EnqueueUnicast(WithHeld(s, p, more), p, s.peers[p].held.value, alloc)
  }

  /** PENDING, with the INIT packet n linked. */
  function Started(s: Rtp, p: PeerId, n: nat): Rtp
    requires p in s.peers
  {
    s.(peers := s.peers[p := s.peers[p].(link := Pending, init := n)])
  }

  /** The interface loses its neighbors and all it has queued. */
  function Cleared(s: Rtp): Rtp {
    s.(peers := map[], pending := [], obuf := [], backoff := false, waiting := false,
       retryTimer := false, onWriteQ := false)
  }

  /** The images that `eigrp_packet_neighbor_output_drop` leaves queued. */
  function Drop(obuf: seq<Image>, p: PeerId, n: nat, retriesOnly: bool): seq<Image> {
    if obuf == [] then []
    else
      var rest := Drop(obuf[1..], p, n, retriesOnly);
      if obuf[0].to == ToPeer(p) && (retriesOnly ==> obuf[0].retrans && obuf[0].n == n)
      then rest else [obuf[0]] + rest
  }

  function DropOutput(s: Rtp, p: PeerId, n: nat, retriesOnly: bool): Rtp {
    var obuf := Drop(s.obuf, p, n, retriesOnly);
    s.(obuf := obuf, onWriteQ := s.onWriteQ && obuf != [])
  }

  /** What one wire send does to a peer's head: `..._reliable_send_update` on
      success, `..._reliable_send_failure_update` otherwise. */
  function SendEffect(peer: Peer, image: Image, ok: bool): Peer {
    if peer.queue == [] || peer.queue[0].n != image.n then peer
    else
      var h := peer.queue[0];
      var h' :=
        if image.retrans then
          h.(retryQueued := false, timer := true, retries := if ok then h.retries + 1 else h.retries)
        else if !ok then h.(timer := true)
        else if !h.sent then h.(sent := true, timer := true)
        else h;
      peer.(queue := peer.queue[0 := h'])
  }

  predicate Reaches(image: Image, p: PeerId) {
    image.to == ToAll || image.to == ToPeer(p)
  }

  function SentTo(peers: map<PeerId, Peer>, image: Image, ok: bool): (r: map<PeerId, Peer>)
    ensures r.Keys == peers.Keys
  {
    map p | p in peers :: if Reaches(image, p) then SendEffect(peers[p], image, ok) else peers[p]
  }

  function WireStep(s: Rtp, ok: bool): Rtp
    requires s.obuf != []
  {
    var image := s.obuf[0];
    s.(obuf := s.obuf[1..],
       wire := if ok then s.wire + [image] else s.wire,
       peers := SentTo(s.peers, image, ok),
       onWriteQ := s.onWriteQ && (|s.obuf| > 1 || s.pending != []))
  }

  /** The acknowledged head leaves, with any retry of it still queued. */
  function Dequeued(s: Rtp, p: PeerId): Rtp
    requires HasHead(s, p)
  {
    var head := s.peers[p].queue[0];
    var s1 := if head.retryQueued then DropOutput(s, p, head.n, true) else s;
    s1.(peers := s1.peers[p := s1.peers[p].(queue := s1.peers[p].queue[1..])])
  }

  /** INIT acknowledged: UP under a fresh epoch, with a synchronization packet. */
  function CameUp(s: Rtp, p: PeerId): Rtp
    requires p in s.peers
  {
    s.(epoch := s.epoch + 1, next := s.next + 1,
       peers := s.peers[p := s.peers[p].(link := Up, epoch := s.epoch + 1, init := 0,
                                         held := Some(s.next))])
  }

  /** `eigrp_packet_ack` for an acknowledgment that matches the head. */
  ghost function AckStep(s: Rtp, p: PeerId, alloc: bool): Rtp
    requires HasHead(s, p)
  {
    var s2 := Resume(Dequeued(s, p));
    if s.peers[p].link == Pending && s.peers[p].queue[0].n == s.peers[p].init then CameUp(s2, p)
    else SendReliably(s2, p, alloc)
  }

  function WentDown(peer: Peer): Peer {
    peer.(link := Down, queue := [], init := 0, held := None, offers := [])
  }

  /** Leaving the adjacency: `eigrp_nbr_state_update_reason` to DOWN, with the
      output queue purged first on the teardown paths that do so. */
  ghost function DownStep(s: Rtp, p: PeerId, purge: bool, delete: bool): Rtp
    requires p in s.peers
  {
    var s1 := if purge then DropOutput(s, p, 0, false) else s;
    var s2 := Resume(s1.(peers := s1.peers[p := WentDown(s1.peers[p])]));
    if delete then s2.(peers := s2.peers - {p}) else s2
  }

  /** `eigrp_packet_unack_retrans` on the timer of peer p's head. */
  ghost function TimerStep(s: Rtp, p: PeerId, alloc: bool): Rtp
    requires p in s.peers && s.peers[p].queue != []
  {
    var head := s.peers[p].queue[0].(timer := false);
    var s1 := WithHead(s, p, head);
    if head.retryQueued then s1
    else if head.retries >= RETRANS_MAX then DownStep(s1, p, true, true)
    else if !alloc then WithHead(s, p, head.(timer := true))
    else Offer(WithHead(s, p, head.(retryQueued := true)), p, head.sent)
  }

  /** When the source can take a step: the states its callers guarantee. */
  predicate Enabled(s: Rtp, step: Step) {
    match step
    case ReserveElsewhere | FlushMulticast | InterfaceDown => true
    case NewPeer(p) => p !in s.peers
    case SendInit(p, _) => p in s.peers && s.peers[p].link == Down
    case FlushUnicast(p, _) => p in s.peers && s.peers[p].link == Up
    case HoldSync(p) => p in s.peers && s.peers[p].link == Up
    case FlushSync(p, _, _) => p in s.peers && s.peers[p].link == Up && s.peers[p].held.Some?
    case Admit(_, _) => s.pending != [] && s.onWriteQ
    case McastRetry => s.retryTimer
    case WireSend(_) => s.obuf != []
    case Ack(p, _) => HasHead(s, p)
    case RetransTimer(p, _) => HasHead(s, p) && s.peers[p].queue[0].timer
    case PeerDown(p, _, delete) => p in s.peers && (delete ==> step.purge)
  }

  ghost function Next(s: Rtp, step: Step): Rtp
    requires Enabled(s, step)
  {
    match step
    case ReserveElsewhere => Reserved(s)
    case NewPeer(p) => s.(peers := s.peers[p := NEW_PEER])
    case SendInit(p, alloc) => Started(FlushStep(s, p, alloc), p, s.next)
    case FlushUnicast(p, alloc) => FlushStep(s, p, alloc)
    case HoldSync(p) => WithHeld(s, p, true)
    case FlushSync(p, more, alloc) => SyncStep(s, p, more, alloc)
    case FlushMulticast => Resume(WithMulticast(s))
    case Admit(fits, alloc) => AdmitStep(s, fits, alloc)
    case McastRetry => Resume(s.(retryTimer := false))
    case WireSend(ok) => WireStep(s, ok)
    case Ack(p, alloc) => AckStep(s, p, alloc)
    case RetransTimer(p, alloc) => TimerStep(s, p, alloc)
    case PeerDown(p, purge, delete) => DownStep(s, p, purge, delete)
    case InterfaceDown => Cleared(s)
  }

  /** A finite run of steps, each enabled where it is taken. */
  ghost predicate IsRun(s: Rtp, steps: seq<Step>)
    decreases |steps|
  {
    steps != [] ==> Enabled(s, steps[0]) && IsRun(Next(s, steps[0]), steps[1..])
  }

  ghost function After(s: Rtp, steps: seq<Step>): Rtp
    requires IsRun(s, steps)
    decreases |steps|
  {
    if steps == [] then s else After(Next(s, steps[0]), steps[1..])
  }
}
