# EIGRP core: a Dafny model

This project models the portable core of an EIGRP implementation (RFC 7868) and
proves what its state machines, arithmetic and codecs keep. Each module follows
one component:

| files | component |
|---|---|
| `Serial`, `RtpModel`, `RtpOrder`, `RtpProgress`, `RtpWakeup`, `RtpLive`, `RtpDelivery`, `RtpOutput`, `RtpTransmit` | the reliable transport of one interface: reservation, flush, deferred multicast, admission, offers, wire sends, acknowledgments, retransmit timers, neighbors coming up and going down |
| `Dual`, `DualSafety`, `DualLaws`, `DualMachine` | DUAL for one destination, with the packetizer's query and update passes |
| `Dampening` | the prefix-limit penalty engine of a neighbor and of an address family |
| `Fence`, `FenceLaws` | suspension and generation fencing between packet admission and dispatch |
| `Pacing`, `Writer`, `WriterSchedule` | the pacing bucket, the round-robin writer and when it is scheduled |
| `ListIndex`, `EventRing` | the linked list with its hash index, and the event ring, on the heap |
| `Bytes`, `Checksum`, `Auth`, `Md5`, `Prefix`, `Hello` | byte-level code: checksum, signing and checking, MD5 streaming, prefix codecs, Hello TLVs |
| `ConditionalReceive` | transport and Hello together: who accepts a conditional multicast |

State machines are given as step functions over a record (`Next`), runs as
sequences of steps. Code that updates records in place is a class whose methods
are proved to take these steps. For the transport and for DUAL one method,
`Take`, takes any step of the model in place and keeps its invariant, so what is
proved of every run holds of the in-place code; the other classes cover the
operations listed below. `RtpDelivery`, `RtpOutput`, `DualLaws`, `FenceLaws` and the sections on
decisions in `Dampening` and `WriterSchedule` tell what each step does without the
functions that compute it: which condition decides, which value is taken, who is
affected and who is not. Packets in the transport are named by the index of
their reservation; `Serial` proves when the wire comparison of two 32-bit
sequence numbers is the order of their indices, and `RtpTransmit` compares wire
numbers only.

The transport's invariant has two layers. The base layer (distinct indices, only
heads worked on, everything released to a peer older than every multicast still
owed to it) is kept by every step, and progress, wake-up and freedom from deadlock rest
on it alone. The order layer on top is kept by every step but the late release
described next.

## What the proofs found

* **Late synchronization packet.** A synchronization UPDATE reserves its
  sequence when the peer comes UP and is queued later without the ordered
  insert (`eigrp/code/eigrp_update.c:568-598, 883-931`). First offers then stay in
  order exactly when nothing newer was queued for or offered to the peer in
  between (`RtpOrder.SyncReleaseExact`); `RtpOrder.LateSyncRelease` is a run that
  offers 1, 3, 2.
* **Retry mark without a retry.** A retransmit timer that fires on a head that
  was never sent marks it `retry_queued`, queues a first image, and the
  first-send path does not clear the mark. The mark is paired with an image
  that clears it exactly when the head had been sent
  (`RtpProgress.TimerRearmsExactly`); otherwise the head is never retransmitted
  again (`RtpProgress.StuckForever`, reached by `RtpProgress.FailedFirstSend`).
* **Completion without a QUERY.** A REPLY, or the loss of a neighbor with a path,
  that arrives between entering ACTIVE and the query pass ends the computation
  although nobody was asked (`DualSafety.UnqueriedCompletion`); the exact
  condition is `DualSafety.ReplyCompletesExactly`.
* **Query asked at rest.** After such a completion the query pass still asks, and
  a PASSIVE destination then holds a reply set it does not need, exactly when it
  was to query and somebody was asked (`DualSafety.QueriedAtRest`).
* **Query origin.** It is held only in ACTIVE_2 and ACTIVE_3, but not always
  there: losing the origin clears it (`eigrp/code/eigrp_topology.c:1655-1656`). A
  step keeps "set exactly in ACTIVE_2 and ACTIVE_3" iff it does not lose the
  origin while the computation goes on (`DualSafety.OriginKeptExactly`);
  `DualSafety.OriginLostRun` is a run into ACTIVE_3 without one. So the ledger of
  QUERYs has a fourth column, the abandoned ones.
* **Dampening needs a restart time that grows slowly.** Under one policy, or
  policies whose restart time grows by at most a quarter from one violation to
  the next, the penalty stays within one and two units (`Dampening.RunKeepsBound`);
  `Dampening.GrowingBaseBreaksBound` exceeds two units with faster growth. At the
  top of the range the exact condition is a growth of at most a third
  (`Dampening.TopScoreExact`).
* **Digest length.** The transmit side does not look at the digest-length field
  of the authentication TLV, the receive side does: a finalized packet verifies
  exactly when the field is right (`Auth.FinalizeThenVerify`). The packets that the
  encoders build have it right (`Auth.BuiltThenVerifies`).
* **What a digest protects.** Everything but checksum and digest, except that MD5
  leaves out a Hello's payload: an altered packet passes whatever the hash exactly
  when no protected octet was altered (`Auth.AlteredPassesExactly`). Under SHA-256
  key and address are hashed without a separator, so only the two together count
  (`Auth.OtherKeyPassesExactly`).
* **Two limits at once.** When one packet runs into the neighbor's and the family's
  limit, the family is suspended first, which clears the neighbor's pending
  cleanup, so its own penalty is not applied (`eigrp/code/eigrp_packet.c:1149-1153`,
  `eigrp/code/eigrp_neighbor.c:958-964`; `FenceLaws.StepIsLawful`).
* **MD5 bit counter.** `len * 8` is taken in 32 bits, so the counter is exact iff
  the carries lost cancel modulo 2^32 (`Md5.CounterExact`); chunks below 2^29
  octets lose none, and one of 2^29 counts as nothing (`Md5.HalfGigabyteUncounted`).
* **Hold time.** A SEQUENCE Hello passes the validator iff the configured hold
  time is not zero (`Hello.HelloValidates`).
* **Predicted length.** The size check of the SEQUENCE Hello counts an
  authentication TLV as soon as key material is configured
  (`eigrp/code/eigrp_hello.c:624`), the encoder writes one only if it finds a key
  (`eigrp/code/eigrp_auth.c:385, 419`). The Hello is never longer than predicted, and
  as long iff a busy peer is listed and a counted TLV has its key
  (`Hello.LengthAsPredicted`).

## Modelling choices

* Clocks, allocation outcomes, send results, the size check of the conditional
  receive Hello, K-values, keys and source texts are parameters of the steps.
* What the topology table answers in a DUAL step (metric change, feasible route,
  best route, successor flag, neighbor count) is an input of the step. Where a
  PASSIVE destination has no route at all, which `eigrp_fsm_event_keep_state`
  reads unchecked, the model leaves the distances alone.
* Live RTP sequence numbers span less than half the number space, as the comment
  at `eigrp/code/eigrp_packet.h:42-43` assumes; `Serial.SpanIsTight` shows that this
  is needed. A packet is dispatched before 2^64 - 1 further neighbor generations
  were issued.
* Hellos do not enter the transport's output queue in `RtpModel`; they appear in
  `Pacing` and `Hello`. That an interface on the write queue gets served is
  `WriterSchedule` (the writer runs) and `Writer` (its turn comes). Admission may be attempted at any time the interface is
  on the write queue.
* Hash functions and the MD5 compression function are parameters.
* Where a name of the source is a C function, the doc comment of the Dafny member
  gives it.

## Model

| member | source | states |
|---|---|---|
| Serial.WireDistance | eigrp/code/eigrp_packet.h:42-48 | the wire distance of two reservations is their index distance, plus one iff the skipped zero lies between |
| Serial.BeforeIsOrder | eigrp/code/eigrp_packet.h:44-48 | within the live span the half-space comparison is the reservation order, and equal numbers mean equal reservations |
| Serial.SpanIsTight | eigrp/code/eigrp_packet.h:42-48 | at the bound the comparison turns around exactly when zero was skipped in between |
| Serial.WireNext | eigrp/code/eigrp_packet.c:2285-2300 | successive reservations are successive numbers with zero left out |
| Serial.SequenceCounter.Reserve | eigrp/code/eigrp_packet.c:2285-2300 | the k-th call returns the k-th nonzero number |
| RtpOrder.PriorCountIsPrefix | eigrp/code/eigrp_packet.c:1940-1955 | in an ordered queue the walk with its early break counts exactly the earlier packets, which stand in front |
| RtpOrder.PriorCountFront | eigrp/code/eigrp_packet.c:1940-1955 | in any queue it counts the front packets up to the first that is not earlier |
| RtpOrder.InsertAdds | eigrp/code/eigrp_packet.c:1959-1980 | ordered enqueue adds the one entry and loses none |
| RtpOrder.InsertKeepsOrder | eigrp/code/eigrp_packet.c:1959-1980 | ordered enqueue keeps the queue strictly ordered |
| RtpOrder.StepKeepsInv | eigrp/code/eigrp_packet.c:1897-2269 | every step keeps the base layer, late releases included; every step but a late release also keeps all queues strictly ordered and offers from going back |
| RtpOrder.RunKeepsInv | eigrp/code/eigrp_packet.c:1897-2269 | the same over every run |
| RtpOrder.OffersIncrease | eigrp/code/eigrp_packet.c:2239-2269 | on every such run from the start the packets offered to a peer since it left DOWN never go back, so first offers strictly increase |
| RtpOrder.SyncReleaseExact | eigrp/code/eigrp_update.c:883-931 | releasing the held packet keeps the peer in order iff nothing newer was queued or offered |
| RtpOrder.LateSyncRelease | eigrp/code/eigrp_update.c:568-598 | a run whose offers to one peer are 1, 3, 2 |
| RtpOrder.AdmitAllOrNothing | eigrp/code/eigrp_packet.c:2080-2200 | an admission attempt touches no reliable queue, or adds exactly one copy to each eligible peer and to nobody else |
| RtpProgress.StepKeepsProgress | eigrp/code/eigrp_packet.c:408-570 | every step in which first images are allocated and sent keeps heads moving and retry counters equal to the retransmissions on the wire, also when queues are out of order |
| RtpProgress.RunKeepsProgress | eigrp/code/eigrp_packet.c:408-570 | the same over every run |
| RtpProgress.QueuesNeverStall | eigrp/code/eigrp_packet.c:2202-2269 | on every run with successful allocations and first sends, a peer with a queued head has it in the output queue, its timer armed, or an earlier eligible multicast pending |
| RtpProgress.TeardownAfterSixteen | eigrp/code/eigrp_packet.c:2750-2811 | the timer tears a peer down iff exactly sixteen retransmissions of its head reached the wire |
| RtpProgress.TimerRearmsExactly | eigrp/code/eigrp_packet.c:2750-2811 | the retry mark is paired with an image that clears it iff the head had been sent or nothing was allocated |
| RtpProgress.StuckStep | eigrp/code/eigrp_packet.c:473-489 | no step that spares the peer clears a mark without an image, nor retransmits the head |
| RtpProgress.StuckForever | eigrp/code/eigrp_packet.c:2795-2811 | the same over every run: the head is never retransmitted again |
| RtpProgress.FailedFirstSend | eigrp/code/eigrp_packet.c:473-489 | a run with one failed first send that ends in that state |
| RtpWakeup.StepKeepsWake | eigrp/code/eigrp_packet.c:2009-2200 | every step keeps a blocked multicast's reason to be blocked true |
| RtpWakeup.RunKeepsWake | eigrp/code/eigrp_packet.c:2009-2200 | the same over every run, including failed sends and late releases |
| RtpWakeup.MulticastNeverStranded | eigrp/code/eigrp_packet.c:2025-2068 | on every run a pending multicast is on the write queue with nothing that makes the writer skip it, has its timer, or waits for a peer that is still busy |
| RtpLive.BusyCanMove | eigrp/code/eigrp_packet.c:1985-2005 | the head of a peer that is busy for the oldest multicast is behind no multicast, so it is queued for output or timed |
| RtpLive.NoDeadlock | eigrp/code/eigrp_packet.c:757-808 | on every run with successful allocations and first sends, with anything left to deliver there is output, an armed timer, or an admission that does something: queues and multicasts do not wait for each other |
| RtpDelivery.StepIsLawful | eigrp/code/eigrp_packet.c:408-2811 | for every step and peer: when it comes UP or goes down, its epoch and held packet, exactly which packets join or leave its queue, which multicasts stay pending, and how the counters move |
| RtpDelivery.MulticastOwedExactly | eigrp/code/eigrp_packet.c:2009-2020 | a multicast is owed to exactly the peers that are UP when it is queued |
| RtpDelivery.NothingIsLost | eigrp/code/eigrp_packet.c:408-471 | on every run on which a peer stays UP, what it is owed or has queued is still owed, still queued, or was acknowledged |
| RtpDelivery.MulticastReaches | eigrp/code/eigrp_packet.c:1985-2200 | on every run a multicast is owed to, queued for or acknowledged by each peer that was UP when it was queued and stays UP; nobody else is owed it or has it, even after coming UP again |
| RtpDelivery.AdmissionIs | eigrp/code/eigrp_packet.c:2080-2200 | when an attempt admits, cancels or blocks the oldest multicast, and with which flag; a receiver with four earlier packets blocks it |
| RtpDelivery.WakeUpIs | eigrp/code/eigrp_packet.c:2025-2068 | when a wake-up puts the interface on the write queue, and which flags stay |
| RtpOutput.StepWorks | eigrp/code/eigrp_packet.c:408-570 | for every step and peer: which image is added to the output queue and which are taken out, what goes out on the wire, and every change of the head's sent, retry and timer marks and of the record of offers |
| RtpOutput.OutputIsListed | eigrp/code/eigrp_packet.c:1897-1925 | on every run an interface with output is on the write queue |
| RtpTransmit.ReliablePriorCount | eigrp/code/eigrp_packet.c:1940-1955 | the loop over wire numbers computes the prior count of any live queue |
| RtpTransmit.ReliableOrderedEnqueue | eigrp/code/eigrp_packet.c:1959-1980 | the scan over wire numbers inserts right before the first packet that is not earlier |
| RtpTransmit.UnicastBehindMulticast | eigrp/code/eigrp_packet.c:1985-2005 | finds out whether an earlier eligible multicast is pending |
| RtpTransmit.TakeCensus | eigrp/code/eigrp_packet.c:2036-2060 | the neighbor walk counts receivers, busy, ready and full peers |
| RtpTransmit.CensusDecides | eigrp/code/eigrp_packet.c:2090-2135 | the counts are positive iff such a neighbor exists |
| RtpTransmit.Distribute | eigrp/code/eigrp_packet.c:2140-2200 | the second walk gives each eligible neighbor its copy |
| RtpTransmit.SendUpdates | eigrp/code/eigrp_packet.c:473-570 | a wire send updates the head of every neighbor it reaches whose head carries the sequence |
| RtpTransmit.Transmit.MulticastResume | eigrp/code/eigrp_packet.c:2025-2068 | takes the resume step in place |
| RtpTransmit.Transmit.MulticastReliableEnqueue | eigrp/code/eigrp_packet.c:2009-2020 | appends the multicast and resumes; it is then owed to exactly the peers that are UP |
| RtpTransmit.Transmit.JudgeOldest | eigrp/code/eigrp_packet.c:2080-2140 | the checks, in the order of the code, give the verdict of the model |
| RtpTransmit.Transmit.MulticastAdmit | eigrp/code/eigrp_packet.c:2080-2200 | takes the admission step in place |
| RtpTransmit.Transmit.SendHead | eigrp/code/eigrp_packet.c:2239-2269 | offers the head or leaves it behind a multicast |
| RtpTransmit.Transmit.LinkReliable | eigrp/code/eigrp_packetizer.c:165-198 | plain enqueue and first offer |
| RtpTransmit.Transmit.NeighborDown | eigrp/code/eigrp_neighbor.c:1427-1465 | empties the queue of a peer that goes DOWN and purges its output |
| RtpTransmit.Transmit.NeighborOutputDrop | eigrp/code/eigrp_packet.c:350-379 | removes exactly the peer's images of a packet from the output queue |
| RtpTransmit.Transmit.Dequeue | eigrp/code/eigrp_packet.c:408-471 | the acknowledged head leaves with its queued retry |
| RtpTransmit.Transmit.PacketAck | eigrp/code/eigrp_packet.c:408-471 | an acknowledgment matches iff it carries the head's number, and then takes the acknowledgment step |
| RtpTransmit.Transmit.NeighborDelete | eigrp/code/eigrp_neighbor.c:1291-1318 | the scan finds the neighbor's node, and exactly it leaves |
| RtpTransmit.Transmit.UnackRetrans | eigrp/code/eigrp_packet.c:2750-2811 | takes the timer step, with the teardown and deletion at the retry limit |
| RtpTransmit.Transmit.WriteOne | eigrp/code/eigrp_packet.c:675-735 | one wire send with its effect on all neighbors |
| RtpTransmit.Transmit.Take | eigrp/code/eigrp_packet.c:408-2269 | the in-place code takes any step of the model and keeps both layers of the invariant and the wake-up invariant, and obeys the laws of the step |
| DualSafety.StepKeeps | eigrp/code/eigrp_fsm.c:415-994 | every step keeps: ACTIVE waits for somebody or still has to query; FD <= distance = rdistance; origin only in ACTIVE_2/3; received = replied + held + superseded + abandoned; no last-reply action with a non-empty reply set |
| DualSafety.RunKeeps | eigrp/code/eigrp_fsm.c:415-994 | the same over every run of messages, neighbor losses and packetizer passes |
| DualSafety.NewDestination | eigrp/code/eigrp_fsm.c:757-800 | a new destination satisfies it |
| DualSafety.QueryPassSettles | eigrp/code/eigrp_packetizer.c:588-613 | right after its query pass a destination is PASSIVE or waits for at least one neighbor, and stays ACTIVE iff somebody was asked |
| DualSafety.FrozenInActive | eigrp/code/eigrp_fsm.c:653-711 | a step that leaves a destination ACTIVE changes none of FD, distance, rdistance, reported metric |
| DualSafety.FrozenRun | eigrp/code/eigrp_fsm.c:653-711 | nor does any run of such steps |
| DualSafety.FdRisesOnlyByLr | eigrp/code/eigrp_fsm.c:800-843 | FD rises only in a step that runs the last-reply action |
| DualSafety.OriginKeptExactly | eigrp/code/eigrp_topology.c:1652-1656 | a step keeps the origin set exactly in ACTIVE_2/3 iff it does not lose the origin while the computation goes on |
| DualSafety.OriginExactlyWhenDue | eigrp/code/eigrp_fsm.c:684-711 | on every run without such a loss the origin is set exactly in ACTIVE_2 and ACTIVE_3 |
| DualSafety.OriginLostRun | eigrp/code/eigrp_topology.c:1652-1656 | a run into ACTIVE_3 without an origin |
| DualSafety.DeferredReplyOnce | eigrp/code/eigrp_fsm.c:800-843 | a return to PASSIVE from ACTIVE_2/3 sends exactly one deferred REPLY, to the origin held, and none when the origin was lost |
| DualSafety.SelectInTable | eigrp/code/eigrp_fsm.c:268-326 | event selection only yields events that the table has for the state |
| DualSafety.DincOnlyMoves | eigrp/code/eigrp_fsm.c:889-910 | a distance increase only changes the origin flag, second look included |
| DualSafety.EventIs | eigrp/code/eigrp_fsm.c:625-647 | dispatch through the table is the selected event's action |
| DualSafety.RepliesConverge | eigrp/code/eigrp_fsm.c:457-619 | REPLYs from distinct awaited neighbors change only the reply set until the last, which ends the computation or starts exactly one more round |
| DualSafety.ReplyCompletesExactly | eigrp/code/eigrp_fsm.c:496-530 | a REPLY ends ACTIVE_1/3 iff nobody else is waited for |
| DualSafety.RequerySettles | eigrp/code/eigrp_topology.c:1856-1905 | a destination put into ACTIVE_1 for a requery, outside the invariant, is back inside it and settled after its query is sent |
| DualSafety.UnqueriedCompletion | eigrp/code/eigrp_fsm.c:496-530 | before the query pass a REPLY ends the computation with the request to query still set |
| DualSafety.QueriedAtRest | eigrp/code/eigrp_packetizer.c:588-613 | the query pass leaves a PASSIVE destination with a reply set iff it was PASSIVE, to query, and somebody was asked |
| DualLaws.StepLawful | eigrp/code/eigrp_fsm.c:415-994 | for every step, without events or tables: the state it leads to, which distance is installed, whom it waits for, whose QUERY is held, what the packetizer must do, and which QUERYs are answered |
| DualLaws.FdIsLeast | eigrp/code/eigrp_fsm.c:769-777 | over every run the feasible distance is the least distance since a computation last ended with whatever route was best |
| DualMachine.ReplyStatusLookup | eigrp/code/eigrp_fsm.c:85-98 | finds the first status of a neighbor, or tells that there is none |
| DualMachine.Destination.ReplyStatusAdd | eigrp/code/eigrp_fsm.c:100-114 | adds a neighbor once |
| DualMachine.Destination.ReplyStatusRemove | eigrp/code/eigrp_fsm.c:116-124 | removes it and tells whether others are pending |
| DualMachine.Destination.LastReply | eigrp/code/eigrp_fsm.c:800-843 | afterwards PASSIVE with an empty reply set, no origin, an UPDATE due, and FD, distance, rdistance and metric those of the best route, or infinite without one |
| DualMachine.Destination.EventSelect | eigrp/code/eigrp_fsm.c:415-619 | a PASSIVE destination goes ACTIVE iff the metric changed, nothing feasible is left and FD is finite; a REPLY leaves the reply set and is kept quiet iff others are pending; a successor's QUERY is noted |
| DualMachine.Destination.Dispatch | eigrp/code/eigrp_fsm.c:625-647 | keeps the invariant; a destination left ACTIVE waits or will ask, with its distances frozen; FD rises only into PASSIVE with nobody left to wait for |
| DualMachine.Destination.PeerDown | eigrp/code/eigrp_topology.c:1640-1675 | keeps the invariant; the lost neighbor is owed nothing and not waited for, and nothing is stranded |
| DualMachine.LostIsForgotten | eigrp/code/eigrp_fsm.c:850-887 | a neighbor lost by an ACTIVE destination leaves its reply set, with or without a route |
| DualMachine.Destination.AwaitReplies | eigrp/code/eigrp_packetizer.c:332-346 | each neighbor asked is awaited once |
| DualMachine.Destination.ChangesSendQueries | eigrp/code/eigrp_packetizer.c:588-613 | keeps the invariant; afterwards PASSIVE or waiting for somebody, and ACTIVE iff somebody was asked |
| DualMachine.Destination.Take | eigrp/code/eigrp_fsm.c:223-994 | the in-place code takes any step of the model, keeps the invariant and obeys the laws of the step |
| Dampening.Decay | eigrp/code/eigrp_neighbor.c:1091-1111 | the shift and the eight-factor loop compute the decayed score, which never grows |
| Dampening.DecayBound | eigrp/code/eigrp_neighbor.c:1091-1111 | a score of one to two units that waited out its suspension is at most one unit when the next violation finds it, even with a restart time a quarter longer |
| Dampening.StepKeepsBound | eigrp/code/eigrp_neighbor.c:1138-1288 | every violation, timer expiry and clear keeps the stored penalty absent or between one and two units, provided the restart time grows by at most a quarter |
| Dampening.RunKeepsBound | eigrp/code/eigrp_neighbor.c:1138-1288 | the same over every run whose restart times grow by at most a quarter from one violation to the next |
| Dampening.SuspensionLength | eigrp/code/eigrp_neighbor.c:1263-1279 | every suspension of such a run lasts between once and twice the base time, exactly once without dampening |
| Dampening.GrowingBaseBreaksBound | eigrp/code/eigrp_neighbor.c:1230-1288 | with restart times that grow faster the penalty exceeds two units |
| Dampening.TopScoreExact | eigrp/code/eigrp_neighbor.c:1091-1111 | two units that waited out their suspension are within the bound under a new base time iff that is at most a third longer |
| Dampening.FactorsAreRoots | eigrp/code/eigrp_neighbor.c:1094-1097 | each factor of the table is the rounded square root of the one before, the first that of one half |
| Dampening.BitsSpell | eigrp/code/eigrp_neighbor.c:1106-1110 | the eight bits tested are the fraction, the half first |
| Dampening.HalfLifeHalves | eigrp/code/eigrp_neighbor.c:1105-1106 | a whole half-life halves the score exactly |
| Dampening.ViolationIs | eigrp/code/eigrp_neighbor.c:1230-1288 | a violation locks iff the counted incident reaches the restart count or the suspension cannot be timed, and otherwise suspends for a time in proportion to the score; score, incidents and deadlines exactly |
| Dampening.RestartIs | eigrp/code/eigrp_neighbor.c:1138-1157 | the restart timer ends a suspension iff it is due, and changes nothing else |
| Dampening.ResetIs | eigrp/code/eigrp_neighbor.c:1159-1180 | the reset timer wipes the history iff it is due and there is no lock |
| Dampening.SuspensionsAreLimited | eigrp/code/eigrp_neighbor.c:1258-1262 | on every run without a clear or a due reset there are fewer suspensions than the restart count |
| Dampening.LockedAtTheLimit | eigrp/code/eigrp_neighbor.c:1258-1262 | on every such run whose suspensions can be timed the lock comes with exactly the incident that reaches the restart count |
| Dampening.SuspendedUntilDue | eigrp/code/eigrp_neighbor.c:1138-1157 | on every run a suspension lasts until its timer fires at or after the deadline |
| Dampening.LockedUntilCleared | eigrp/code/eigrp_pfxlimits.c:163-204 | no violation and no timer ends a lock |
| Dampening.NoOverflow | eigrp/code/eigrp_pfxlimits.c:238-250 | products of configurable times and scores fit 64 bits, so the saturating product never saturates |
| Dampening.Effective | eigrp/code/eigrp_neighbor.c:1050-1085 | each value comes from the nearest scope that gives one, is positive and as wide as its scope; dampening is inherited from any scope |
| Dampening.LimitRecord.Charge | eigrp/code/eigrp_neighbor.c:1243-1259 | decays, charges one unit and counts the incident |
| Dampening.LimitRecord.NeighborExceeded | eigrp/code/eigrp_neighbor.c:1230-1288 | turns a penalized neighbor away; otherwise suspends, or locks when the incident reaches the restart count, a failure leaving the lock to the caller |
| Dampening.LimitRecord.NeighborCleanup | eigrp/code/eigrp_neighbor.c:1211-1225 | never leaves the neighbor eligible, locks iff the incidents reach the count or the suspension cannot be timed, and keeps the penalty bound when the restart time grew by at most a quarter |
| Dampening.LimitRecord.FamilyExceeded | eigrp/code/eigrp_pfxlimits.c:206-270 | never leaves the family eligible, locks iff the incidents reach the count or the suspension cannot be timed, keeps the penalty bound when the restart time grew by at most a quarter, and its product never saturates |
| Dampening.LimitRecord.OnRestart | eigrp/code/eigrp_neighbor.c:1138-1157 | only a suspension ends, not before its deadline, and the penalty bound is kept |
| Dampening.LimitRecord.OnReset | eigrp/code/eigrp_neighbor.c:1159-1180 | neither phase nor restart deadline changes, a lock keeps its score, and the penalty bound is kept |
| Fence.StepKeeps | eigrp/code/eigrp_neighbor.c:991-1040 | every step keeps: penalized or suspended neighbors are DOWN, nothing half done between steps, and a queued packet's stamp is its neighbor's iff the neighbor was not touched since |
| Fence.RunKeeps | eigrp/code/eigrp_neighbor.c:991-1040 | the same over every run |
| Fence.GateIsExact | eigrp/code/eigrp_packet.c:1009-1022 | the dispatch gate passes a packet iff its neighbor was not suspended, released or deleted since admission and is eligible |
| Fence.StaleExactly | eigrp/code/eigrp_pfxlimits.c:63-126 | a queued packet turns stale in exactly the steps that begin or end a penalty or suspension of its neighbor or delete it |
| Fence.FenceHolds | eigrp/code/eigrp_packet.c:1009-1022 | over whole runs: a fresh packet is let through iff no step since touched its neighbor and the neighbor is eligible |
| Fence.AdmissionIsFresh | eigrp/code/eigrp_packet.c:2651-2677 | admission against an eligible neighbor queues a fresh packet with its generation, and nothing otherwise |
| Fence.SilentWhileSuspended | eigrp/code/eigrp_packet.c:1009-1022 | while the family or the neighbor is suspended or locked none of its packets is admitted or handled |
| FenceLaws.StepIsLawful | eigrp/code/eigrp_pfxlimits.c:63-126 | for every step and neighbor: presence, state, penalty, family suspension and generation, with the family's state and the queue |
| FenceLaws.PenaltyIs | eigrp/code/eigrp_neighbor.c:991-1021 | a lock stays, and a suspension can only become a lock; the first penalty takes the neighbor down with a new generation, later ones do not |
| FenceLaws.GenerationIs | eigrp/code/eigrp_neighbor.c:991-1021 | generations are the nonzero 64-bit numbers in turn |
| Fence.StepKeepsLock | eigrp/code/eigrp_neighbor.c:1001-1008 | a LOCKED neighbor stays locked through every step but its deletion |
| Fence.LockedUntilDeleted | eigrp/code/eigrp_neighbor.c:1159-1180 | the same over every run, and it stays DOWN |
| Fence.Runtime.Lookup | eigrp/code/eigrp_neighbor.c:840-853 | finds the neighbor with an address |
| Fence.Runtime.LimitStateUpdate | eigrp/code/eigrp_neighbor.c:991-1021 | penalizes, with a new generation on the first penalty |
| Fence.Runtime.NbrUpdate | eigrp/code/eigrp_pfxlimits.c:63-126 | the loop over all neighbors, one generation each |
| Fence.Runtime.IngressAuthenticate | eigrp/code/eigrp_packet.c:2651-2677 | keeps the invariant; accepts exactly packets of eligible neighbors and discovery Hellos of unknown ones, and queues them fresh |
| Fence.Runtime.RestartExpired | eigrp/code/eigrp_neighbor.c:1025-1040 | ends a suspension but no lock, leaves the neighbor DOWN, and makes every packet admitted before stale |
| Fence.Runtime.PacketRead | eigrp/code/eigrp_packet.c:893-1153 | keeps the invariant; a packet with a generation is handled iff its neighbor was not touched since admission and is eligible, and otherwise changes no neighbor |
| Pacing.PollsAreExact | eigrp/code/eigrp_packet.c:596-632 | however often the writer polls within a delay it was given, the delay shrinks by exactly the time that passed |
| Pacing.Rate | eigrp/code/eigrp_packet.c:582-594 | the configured, else the current, else the default bandwidth, times the configured share or 50 percent |
| Pacing.WaitIsBounded | eigrp/code/eigrp_packet.c:596-632 | a packet that finds no usable bucket goes at once, and none waits longer than its cost takes to earn |
| Pacing.NothingWasted | eigrp/code/eigrp_packet.c:596-642 | credit grows by what was earned up to the capacity and shrinks by exactly what is sent; what can be paid goes |
| Pacing.WindowBound | eigrp/code/eigrp_packet.c:596-642 | the gated bytes of any window cost at most its length times the rate plus one millisecond or one largest packet, with Hellos interleaved at will |
| Pacing.StartedPays | eigrp/code/eigrp_packet.c:596-642 | a started bucket pays from its credit and its earnings |
| Pacing.Refill | eigrp/code/eigrp_packet.c:613-625 | the refill that tests for saturation first is the textbook refill and stays in 64 bits |
| Pacing.ConfiguredRateFits | eigrp/code/eigrp_packet.c:582-594 | every configurable rate leaves the room that the sums need |
| Pacing.Interface.Delay | eigrp/code/eigrp_packet.c:596-632 | updates the bucket and returns the exact wait, below the 32-bit cap |
| Pacing.StepPays | eigrp/code/eigrp_packet.c:634-642 | what one look or charge sends and leaves is covered by the credit before and the time that passed |
| Pacing.Interface.Attempt | eigrp/code/eigrp_packet.c:757-877 | a gated look and send in place: sent bytes are paid for out of one capacity, or out of credit and earnings |
| Writer.ServedWithin | eigrp/code/eigrp_packet.c:757-877 | an interface at position p whose head stays ready is served within p + 1 calls, whatever others send, join or leave |
| Writer.PositionFalls | eigrp/code/eigrp_packet.c:840-858 | a call that serves another interface moves it up by one, other events never move it back |
| Writer.CallIs | eigrp/code/eigrp_packet.c:764-858 | a call serves the first interface that need not wait; it goes last or leaves, the others keep their order |
| Writer.MembershipIs | eigrp/code/eigrp_packet.c:1897-1925 | joining adds at the tail once, leaving takes out and keeps the order |
| Writer.Scan | eigrp/code/eigrp_packet.c:764-808 | finds the first interface that need not wait, else the least delay |
| Writer.FamilyWriter.PacketWrite | eigrp/code/eigrp_packet.c:757-877 | serves and rotates; without a ready head the timer gets the least delay; reschedules iff some queued interface has output |
| WriterSchedule.StepKeepsAwake | eigrp/code/eigrp_packet.c:757-877 | every enqueue, wake-up, drop, timer expiry and write keeps: with output or an admissible multicast on the write queue, the writer is scheduled or the pacing timer armed |
| WriterSchedule.WriterNeverSleepsOnWork | eigrp/code/eigrp_packet.c:757-877 | the same over every run |
| WriterSchedule.OutputIsNeverForgotten | eigrp/code/eigrp_packet.c:1897-1925 | on every run an interface with a packet to send is on the write queue, with the writer scheduled or the pacing timer armed |
| WriterSchedule.StepBalances | eigrp/code/eigrp_packet.c:757-877 | a step neither loses nor makes up packets: what comes in is sent, dropped or still queued, for output and pending multicasts |
| WriterSchedule.RunBalances | eigrp/code/eigrp_packet.c:757-877 | the same over every run |
| WriterSchedule.SentIsReady | eigrp/code/eigrp_packet.c:764-808 | what a call sends need not wait, and everything before it has nothing to send or must |
| WriterSchedule.MembershipIs | eigrp/code/eigrp_packet.c:757-877 | who is on the write queue after a step, and who is blocked |
| WriterSchedule.WriterIs | eigrp/code/eigrp_packet.c:639-655 | when the writer is scheduled and the pacing timer armed |
| ListIndex.List.IndexResize | eigrp/code/eigrp_list.c:21-37 | rebuilds buckets that partition exactly the linked nodes, or changes nothing |
| ListIndex.List.IndexEnable | eigrp/code/eigrp_list.c:41-48 | turns the index on unless memory fails |
| ListIndex.List.IndexAdd | eigrp/code/eigrp_list.c:63-76 | indexes the new node, doubling a loaded table |
| ListIndex.List.IndexRemove | eigrp/code/eigrp_list.c:78-93 | takes exactly that node out of its chain |
| ListIndex.List.Add | eigrp/code/eigrp_list.c:134-151 | appends one node, or changes nothing when it cannot be allocated; list and index stay consistent |
| ListIndex.List.Insert | eigrp/code/eigrp_list.c:153-177 | inserts before the first node that must follow, last without a comparison, or changes nothing when the node cannot be allocated |
| ListIndex.InsertKeepsSorted | eigrp/code/eigrp_list.c:153-177 | that position keeps a sorted list sorted and puts ties in order of arrival |
| ListIndex.List.Remove | eigrp/code/eigrp_list.c:95-113 | unlinks exactly that node and keeps the order of the rest |
| ListIndex.List.Lookup | eigrp/code/eigrp_list.c:179-195 | with or without an index finds a node carrying the data iff there is one; the scan finds the first |
| ListIndex.ChainLookup | eigrp/code/eigrp_list.c:184-190 | the bucket chain holds the data iff any node does |
| ListIndex.List.DeleteData | eigrp/code/eigrp_list.c:197-202 | removes exactly one occurrence and keeps the order of the rest |
| ListIndex.List.MoveToTail | eigrp/code/eigrp_packet.c:845-858 | the writer's rotation moves the served node last |
| Checksum.FoldIsResidue | eigrp/code/eigrp_checksum.c:16-17 | folding takes away a multiple of 2^16 - 1 and keeps zero apart |
| Checksum.SealedSumsToZero | eigrp/code/eigrp_checksum.c:5-19 | a packet of any length sums to zero iff its field holds the checksum, or the other form of zero |
| Checksum.AlteredOctetShows | eigrp/code/eigrp_checksum.c:5-19 | a packet that sums to zero no longer does with any one octet altered |
| Checksum.Compute | eigrp/code/eigrp_checksum.c:5-19 | the loops compute that checksum without leaving 32 bits |
| Auth.NextIsNewer | eigrp/code/eigrp_auth.c:25-50 | each signature's sequence is newer than the one before, through wrap and skipped zero |
| Auth.NewerIsLater | eigrp/code/eigrp_auth.c:25-41 | a receiver that stored send j accepts send k iff k is later, within the live span |
| Auth.FinalizeThenVerify | eigrp/code/eigrp_auth.c:137-365 | a finalized packet sums to zero, differs from its template only in three fields, and verifies iff its digest length is right and its sequence newer |
| Auth.AuthTlv | eigrp/code/eigrp_auth.c:367-432 | the encoded TLV has the size, type and digest length that the receiver expects |
| Auth.TemplateIsFramed | eigrp/code/eigrp_auth.c:367-432 | every packet built with it is framed as finalize and check require |
| Auth.BuiltThenVerifies | eigrp/code/eigrp_auth.c:367-432 | every packet built and finalized sums to zero and verifies iff its sequence is newer |
| Auth.UnsignedSumsToZero | eigrp/code/eigrp_auth.c:755-759 | without authentication the checksum alone is set right |
| Auth.Hashed | eigrp/code/eigrp_auth.c:137-166 | position by position: MD5 hashes 44 octets, the key filled up to 16, and the payload unless it is a Hello; the HMAC key is a newline, the key and the address |
| Auth.DigestCovers | eigrp/code/eigrp_auth.c:137-240 | the digest of a signed packet is the hash of its own octets and the key |
| Auth.AcceptedByEveryHash | eigrp/code/eigrp_auth.c:196-365 | a digest moved to another packet or key is accepted whatever the hash iff the two are hashed alike |
| Auth.AlteredPassesExactly | eigrp/code/eigrp_auth.c:196-365 | under the same key an altered packet is accepted whatever the hash iff no protected octet was altered |
| Auth.OtherKeyPassesExactly | eigrp/code/eigrp_auth.c:154-162 | another MD5 key is accepted whatever the hash iff it is the same text; under SHA-256 iff key and address together are the same |
| Auth.PassingIsFramed | eigrp/code/eigrp_auth.c:218-236 | nothing passes without the TLV of the mode, its lengths and a nonzero sequence |
| Auth.Interface.SequenceNext | eigrp/code/eigrp_auth.c:45-50 | counts through all nonzero values |
| Auth.Interface.TransmitFinalize | eigrp/code/eigrp_auth.c:740-797 | succeeds iff frame, key and source are there, and then leaves the signed packet in the buffer |
| Auth.Receiver.CheckDigest | eigrp/code/eigrp_auth.c:196-365 | accepts iff the check holds, stores the sequence only then, and leaves the packet as it was |
| Md5.CounterExact | eigrp/code/eigrp_md5.c:118-123 | the bit counter is right modulo 2^64 iff the lost carries cancel |
| Md5.SmallChunksLoseNothing | eigrp/code/eigrp_md5.c:118-123 | no carry is lost iff every chunk is below 2^29 octets |
| Md5.HalfGigabyteUncounted | eigrp/code/eigrp_md5.c:118-123 | a chunk of 2^29 octets counts as zero bits |
| Md5.CountIsLength | eigrp/code/eigrp_md5.c:118-123 | chunks below 2^29 octets are counted right, whatever the split |
| Md5.PaddedIs | eigrp/code/eigrp_md5.c:142-173 | octet by octet: the message, a one bit, as few zeros as make whole blocks, and the counter low-order octet first (sections 3.1 and 3.2 of RFC 1321) |
| Md5.InitialWords | eigrp/code/eigrp_md5.c:107-116 | the initial state is that of section 3.3 of RFC 1321 |
| Md5.Context.Update | eigrp/code/eigrp_md5.c:118-140 | the state holds the whole blocks and the buffer the rest of the message so far |
| Md5.Context.Pad | eigrp/code/eigrp_md5.c:142-173 | the state becomes that of the padded message |
| Md5.Hash | eigrp/code/eigrp_md5.c:107-173 | for every split the blocks fed to the compression function are those of the message, padding and counted length, which is the true one for chunks below 2^29 octets (sections 3.1 and 3.2 of RFC 1321) |
| EventRing.RunConserves | eigrp/code/eigrp_eventlog.c:683-809 | over every run written = overwritten + kept, and the kept events are the newest of those recorded |
| EventRing.KeepsNewest | eigrp/code/eigrp_eventlog.c:746-780 | at a fixed capacity exactly the newest capacity events are kept |
| EventRing.EventLog.RecentRead | eigrp/code/eigrp_eventlog.c:93-103 | the wrapped index is that of the k-th newest event |
| EventRing.EventLog.MsgAdd | eigrp/code/eigrp_eventlog.c:746-780 | takes the add step, also at capacity 0 |
| EventRing.EventLog.ResizeTo | eigrp/code/eigrp_eventlog.c:683-725 | keeps the newest events that fit, to and from 0, or changes nothing |
| EventRing.EventLog.ClearAll | eigrp/code/eigrp_eventlog.c:793-809 | forgets everything but the capacity |
| EventRing.EventLog.Iterate | eigrp/code/eigrp_eventlog.c:936-961 | yields the kept events newest first |
| Prefix.MaskedBitAt | eigrp/code/eigrp_prefix.c:40-65 | masking keeps the bits of the prefix length and clears all others |
| Prefix.NormalizeIsIdempotent | eigrp/code/eigrp_prefix.c:40-65 | normalizing twice is normalizing once |
| Prefix.NormalizeInPlace | eigrp/code/eigrp_prefix.c:40-65 | masks the octets in place and leaves invalid prefixes alone |
| Prefix.MatchIsBitAgreement | eigrp/code/eigrp_prefix.c:67-94 | an address matches iff it agrees in every bit of the prefix length |
| Prefix.MatchIsNormalForm | eigrp/code/eigrp_prefix.c:67-94 | an address matches iff masked to the length it is the normalized prefix |
| Prefix.WireBytes | eigrp/code/eigrp_ipv6.c:42-56 | the least octets that hold the prefix for IPv4; for IPv6 the least that hold one bit more, 16 at /128 and none at /0 |
| Prefix.RoundTrip | eigrp/code/eigrp_ipv4.c:176-229 | decoding an encoded prefix gives its normal form and consumes what was produced, whatever follows |
| Prefix.ReencodeIsCanonical | eigrp/code/eigrp_ipv6.c:94-147 | encoding a decoded prefix gives the consumed octets back iff no bit beyond the prefix was set |
| Prefix.Stream.PrefixDecode | eigrp/code/eigrp_ipv6.c:94-126 | reads a prefix and moves by what it consumed; a failed decode restores the read position |
| Prefix.Stream.PrefixEncode | eigrp/code/eigrp_ipv6.c:128-147 | appends the encoding and returns its length |
| Hello.ParsePayload | eigrp/code/eigrp_hello.c:438-534 | a walk over encoded TLVs visits exactly their boundaries |
| Hello.TlvsValidate | eigrp/code/eigrp_hello.c:285-351 | the one-pass validator accepts iff the framing is right, every TLV is and a Parameter TLV is among them |
| Hello.TlvOkIs | eigrp/code/eigrp_hello.c:285-351 | what the validator asks of each TLV type |
| Hello.SequenceFits | eigrp/code/eigrp_hello.c:611-637 | compares the predicted length with the payload limit |
| Hello.FitsIs | eigrp/code/eigrp_packet.h:35-40 | a Hello fits iff with a 20-octet network header it is no longer than the interface takes |
| Hello.FittingIsFramable | eigrp/code/eigrp_hello.c:611-637 | a Hello that fits an interface MTU of 16 bits can be framed |
| Hello.LengthAsPredicted | eigrp/code/eigrp_hello.c:766-832 | the Hello is never longer than predicted, and exactly as long iff a busy peer is listed and an authentication TLV that was counted has a usable key |
| Hello.HelloValidates | eigrp/code/eigrp_hello.c:718-832 | a SEQUENCE Hello passes the validator iff the hold time is not zero |
| Hello.ListedIs | eigrp/code/eigrp_hello.c:655-666 | an address is listed iff it is that of an eligible busy peer |
| Hello.MentionsIsMember | eigrp/code/eigrp_hello.c:464-486 | the receiver's scan finds its address iff it is listed |
| Hello.WalkToTheEnd | eigrp/code/eigrp_hello.c:438-534 | of any valid Hello without a goodbye or termination: the last SEQUENCE, NEXT_MULTICAST_SEQUENCE and Parameter decide, and the state falls back only if K-values differ |
| Hello.WalkEndsAt | eigrp/code/eigrp_hello.c:505-515 | a goodbye, or a termination that names the receiver, takes the neighbor down; nothing behind it counts, nor a SEQUENCE before it |
| Hello.ConditionalReceiveIs | eigrp/code/eigrp_hello.c:521-526 | conditional receive is entered iff the SEQUENCE does not list the receiver and the number is not zero |
| Hello.ConditionalReceiveAgreement | eigrp/code/eigrp_packet.c:1062-1087 | exactly the receivers that a SEQUENCE Hello does not list enter conditional receive for its sequence and accept the multicast; without a listed peer only a K-value mismatch resets the state |
| Hello.Output.SequenceEncode | eigrp/code/eigrp_hello.c:639-678 | appends the SEQUENCE TLV with its length patched in, nothing without a busy peer |
| Hello.Output.HelloEncode | eigrp/code/eigrp_hello.c:766-832 | writes exactly the TLVs of the agreement and returns the packet's length |
| Hello.Neighbor.HelloReceive | eigrp/code/eigrp_hello.c:438-534 | validates, walks and sets the conditional-receive state, with the resets by goodbye, K-value mismatch and peer termination |
| ConditionalReceive.ListedIsBusy | eigrp/code/eigrp_hello.c:655-666 | the Hello for a multicast lists exactly the peers that are busy for it |
| ConditionalReceive.MulticastReachesTheReady | eigrp/code/eigrp_packet.c:2128-2180 | when a multicast is admitted while a receiver is busy and its Hello fits, exactly the receivers that are ready accept it |

## Left out

- Host calls, sockets, threads and locks, logging, show output and configuration setters: no protocol logic of their own.
- The topology table, route selection, TLV1/TLV2 route codecs, summaries and redistribution: their answers are inputs here, and nothing is claimed about loop freedom across routers.
- Composite metrics are values compared for equality only.
- Connected destinations of DUAL (`eigrp/code/eigrp_interface.c:1535-1542`) and the change of a feasible distance outside the state machine (`eigrp/code/eigrp_topology.c:1388-1394`).
- The SIA timers and SIA messages of DUAL, beyond leaving the state alone.
- The `del` callbacks of lists, which free data.
- Discovery Hellos (generation 0) in `Fence`: they pass dispatch without a generation check (`eigrp/code/eigrp_packet.c:1014-1017`), and their handler may send INIT or delete the neighbor on a goodbye; the gate is stated only for packets that carry a generation.
- IPv4 source checks, address codecs without a prefix, and text formatting.
- SHA-256, HMAC and MD5 rounds: the hashes are parameters.
- Dampening.RunKeepsBound: assumes that the restart time grows by at most a quarter from one violation to the next, because the bound fails with fast growth (`GrowingBaseBreaksBound`). The exact limit of growth is proved at the top of the range (`TopScoreExact`: a third); just below it the truncated fraction of a half-life makes it smaller, and a limit for all scores together was not derived.
- RtpOrder.RunKeepsInv: the order layer assumes held packets are released in order, because the order fails otherwise (`LateSyncRelease`); the base layer assumes nothing.
- RtpProgress.RunKeepsProgress: assumes allocations and first wire sends succeed, because a head can get stuck otherwise (`FailedFirstSend`).
- EventRing.EventLog.ResizeTo: capacities of 2^31 and more are not modelled, because the 32-bit index sum of the read would wrap.
- Md5.Context.Update: one call takes less than 2^32 - 64 octets, because the loop index of the source would wrap above.
- Writer.FamilyWriter.PacketWrite: the heads seen by a call are inputs; that pacing delays stay below 2^32 - 1 is `Pacing.Interface.Delay`.
