/**
 DUAL for one destination: event selection, the state/event table, the event
 functions, the reply-status set, neighbor loss and the packetizer's query and
 update passes.

 What the topology table answers in a step (metric change, feasible route, best
 route, successor flag, number of UP neighbors) is an input of the step.
 */
module Dual {
  import opened Common

  type Nbr = nat
  type Metric = nat   // eigrp_metrics_t, compared only for equality

  const MAX_METRIC: nat := 0xffff_ffff
  const UNREACHABLE_METRIC: Metric := 0   // the zeroed vector with maximal delay

  datatype State = Passive | Active0 | Active1 | Active2 | Active3

  datatype Packet = Update | Query | Reply | SiaQuery

  datatype Change = Decrease | Same | Increase

  datatype Route = Route(distance: nat, total: Metric)

  /** A message for the state machine with the topology's answers. `again` is
      the metric change of the second look taken by `event_dinc`. */
  datatype Message = Message(kind: Packet, from: Nbr, successor: bool, change: Change, again: Change,
                             selected: Option<Route>, best: Option<Route>, nbrCount: nat)

  datatype Event = NqFcn | Lr | QFcn | LrFcs | Dinc | Qact | LrFcn | Keep

  /** What happened to the QUERYs received, and how often `event_lr` ran. */
  datatype Ledger = Ledger(received: nat, replied: nat, superseded: nat, abandoned: nat,
                           lrRuns: nat, lrEarly: nat, deferred: seq<Nbr>)

  /** `eigrp_prefix_descriptor_t`: `changes` counts its nodes on the
      topology-change list that the packetizer drains. */
  datatype Dest = Dest(state: State, fd: nat, distance: nat, rdistance: nat, metric: Metric,
                       rij: seq<Nbr>, origin: Option<Nbr>, needQuery: bool, needUpdate: bool,
                       changes: nat, ledger: Ledger)

  const NO_HISTORY := Ledger(0, 0, 0, 0, 0, 0, [])

  predicate Active(d: Dest) { d.state != Passive }

  predicate HoldsOrigin(s: State) { s == Active2 || s == Active3 }

  /** `eigrp_fsm_reply_status_remove` */
  function Without(rij: seq<Nbr>, n: Nbr): seq<Nbr> {
    if rij == [] then []
    else if rij[0] == n then rij[1..]
    else [rij[0]] + Without(rij[1..], n)
  }

  /** `eigrp_fsm_reply_status_add` */
  function With(rij: seq<Nbr>, n: Nbr): seq<Nbr> {
    if n in rij then rij else rij + [n]
  }

  function WithAll(rij: seq<Nbr>, ns: seq<Nbr>): seq<Nbr>
    decreases |ns|
  {
    if ns == [] then rij else WithAll(With(rij, ns[0]), ns[1..])
  }

  /** `eigrp_fsm_event_select`: the reply set after a received REPLY, and the event. */
  function Select(d: Dest, msg: Message, change: Change): (Dest, Event) {
    if d.state == Passive then
      (d, if change == Same || (msg.selected.None? && d.fd == MAX_METRIC) then Keep
          else if msg.selected.Some? then Keep
          else if msg.kind == Query then QFcn
          else NqFcn)
    else if msg.kind == Reply then
      var d' := d.(rij := Without(d.rij, msg.from));
      (d', if d'.rij != [] then Keep
           else if d.state == Active1 || d.state == Active3 then Lr
           else if msg.selected.Some? then LrFcs
           else LrFcn)
    else if msg.kind == Query && msg.successor then (d, Qact)
    else if (d.state == Active1 || d.state == Active3) && msg.kind == Update
            && change == Increase && msg.successor then (d, Dinc)
    else (d, Keep)
  }

  /** The table `NSM`: what an event does in a state. */
  function Table(s: State, e: Event): Event {
    match s
    case Passive => if e == NqFcn || e == QFcn then e else Keep
    case Active0 | Active2 => if e == LrFcs || e == Qact || e == LrFcn then e else Keep
    case Active1 | Active3 => if e == Lr || e == Dinc || e == Qact then e else Keep
  }

  function Queued(d: Dest): Dest { d.(changes := d.changes + 1) }

  /** `eigrp_reply_send` to the neighbor that asked */
  function Replied(d: Dest): Dest {
    d.(ledger := d.ledger.(replied := d.ledger.replied + 1))
  }

  /** The deferred REPLY to the QUERY origin, if one is held. */
  function Discharge(d: Dest): Dest {
    match d.origin
    case None => d
    case Some(n) =>
      d.(origin := None,
         ledger := d.ledger.(replied := d.ledger.replied + 1, deferred := d.ledger.deferred + [n]))
  }

  /** Back to PASSIVE, answering the QUERY origin when the REPLY is owed. */
  function Returned(d: Dest, owed: bool): Dest {
    var d1 := if owed then Discharge(d) else d;
    Queued(d1.(origin := None, rij := [], state := Passive, needUpdate := true))
  }

  /** The distances taken from the best route when the last reply is in. */
  function Recomputed(d: Dest, best: Option<Route>): Dest {
    var distance := if best.Some? then best.value.distance else MAX_METRIC;
    var metric := if best.Some? then best.value.total else UNREACHABLE_METRIC;
    d.(fd := distance, distance := distance, rdistance := distance, metric := metric,
       ledger := d.ledger.(lrRuns := d.ledger.lrRuns + 1,
                           lrEarly := if d.rij == [] then d.ledger.lrEarly else d.ledger.lrEarly + 1))
  }

  /** `eigrp_fsm_event_lr` */
  function EventLr(d: Dest, best: Option<Route>): Dest {
    Returned(Recomputed(d, best), HoldsOrigin(d.state))
  }

  /** Ask the neighbors, or finish at once when there are none. */
  function Diffuse(d: Dest, msg: Message): Dest {
    if msg.nbrCount > 0 then Queued(d.(needQuery := true)) else EventLr(d, msg.best)
  }

  /** `eigrp_fsm_event_keep_state` */
  function EventKeep(d: Dest, msg: Message): Dest {
    if d.state == Passive then
      var route := if msg.selected.Some? then msg.selected else msg.best;
      var d1 :=
        if route.Some? && d.metric != route.value.total then
          Queued(d.(distance := route.value.distance, rdistance := route.value.distance,
                    fd := if route.value.distance < d.fd then route.value.distance else d.fd,
                    metric := route.value.total, needUpdate := true))
        else d;
      if msg.kind == Query then Replied(d1) else d1
    else if msg.kind == Query && !msg.successor then Replied(d)
    else d
  }

  /** The distances taken from a feasible route; FD only goes down. */
  function Adopted(d: Dest, route: Route): Dest {
    d.(distance := route.distance, rdistance := route.distance, metric := route.total,
       fd := if d.fd > route.distance then route.distance else d.fd)
  }

  function EventLrFcs(d: Dest, route: Route): Dest {
    Returned(Adopted(d, route), d.state == Active2)
  }

  function EventLrFcn(d: Dest, msg: Message): Dest {
    Diffuse(d.(state := if d.state == Active0 then Active1 else Active3, rij := []), msg)
  }

  function EventQact(d: Dest, msg: Message): Dest {
    d.(state := Active2, origin := Some(msg.from),
       ledger := if d.origin.Some? then d.ledger.(superseded := d.ledger.superseded + 1) else d.ledger)
  }

  /** Run one event function; `event_dinc` looks again when nobody is waited for. */
  function Perform(d: Dest, e: Event, msg: Message): Dest
    decreases d.state == Active1 || d.state == Active3
  {
    match e
    case NqFcn => Diffuse(d.(state := Active1, rij := []), msg)
    case QFcn => Diffuse(d.(state := Active3, origin := Some(msg.from), rij := []), msg)
    case Lr => EventLr(d, msg.best)
    case LrFcs => if msg.selected.Some? then EventLrFcs(d, msg.selected.value) else d
    case LrFcn => EventLrFcn(d, msg)
    case Qact => EventQact(d, msg)
    case Keep => EventKeep(d, msg)
    case Dinc =>
      var d1 := d.(state := if d.state == Active1 then Active0 else Active2);
      if d.rij != [] || !(d.state == Active1 || d.state == Active3) then d1
      else
        var (d2, e2) := Select(d1, msg, msg.again);
        if d2.state == d1.state then Perform(d2, Table(d2.state, e2), msg) else d2
  }

  /** `eigrp_fsm_event` */
  function FsmEvent(d: Dest, msg: Message): Dest {
    var d0 := if msg.kind == Query then d.(ledger := d.ledger.(received := d.ledger.received + 1)) else d;
    var (d1, e) := Select(d0, msg, msg.change);
    Perform(d1, Table(d1.state, e), msg)
  }

  /** The loss of the last neighbor waited for counts as its REPLY. */
  function LastLost(d: Dest, msg: Message): Dest {
    if d.state == Active0 || d.state == Active2 then
      if msg.selected.Some? then EventLrFcs(d, msg.selected.value) else EventLrFcn(d, msg)
    else EventLr(d, msg.best)
  }

  /** `eigrp_fsm_neighbor_down` for a peer without a route descriptor. */
  function LostReply(d: Dest, msg: Message): Dest {
    if d.state == Passive || msg.from !in d.rij then d
    else
      var d1 := d.(rij := Without(d.rij, msg.from));
      if d1.rij != [] then d1 else LastLost(d1, msg)
  }

  /** A lost neighbor no longer needs the REPLY it was owed. */
  function Abandon(d: Dest, n: Nbr): Dest {
    if d.origin == Some(n) then
      d.(origin := None, ledger := d.ledger.(abandoned := d.ledger.abandoned + 1))
    else d
  }

  /** `eigrp_topology_neighbor_down` for one destination: with a route descriptor
      its poisoned path goes through the state machine. */
  function NeighborDown(d: Dest, msg: Message, hasRoute: bool): Dest {
    var d1 := Abandon(d, msg.from);
    if hasRoute then FsmEvent(d1, msg.(kind := if d.state == Passive then Update else Reply))
    else LostReply(d1, msg)
  }

  /** `eigrp_fsm_query_sent` */
  function QuerySent(d: Dest, best: Option<Route>): Dest {
    if d.state == Passive || d.rij != [] then d else EventLr(d, best)
  }

  /** `eigrp_packetizer_changes_send` for QUERYs: the neighbors queried join the
      reply-status set, then the action is cleared and the nodes of a
      destination without further actions leave the list. */
  function QueryPass(d: Dest, targets: seq<Nbr>, best: Option<Route>): Dest {
    if !d.needQuery then (if d.needUpdate then d else d.(changes := 0))
    else
      var d1 := QuerySent(d.(rij := WithAll(d.rij, targets)), best);
      d1.(needQuery := false, changes := if d1.needUpdate then d1.changes else 0)
  }

  /** A QUERY for this destination alone: `eigrp_packetizer_query_send`. */
  function QueryOne(d: Dest, targets: seq<Nbr>, best: Option<Route>): Dest {
    QuerySent(d.(rij := WithAll(d.rij, targets)), best)
  }

  function UpdatePass(d: Dest): Dest {
    d.(needUpdate := false, changes := if d.needQuery then d.changes else 0)
  }

  datatype Step =
    | Receive(msg: Message)
    | Lost(msg: Message, hasRoute: bool)
    | SendQueries(targets: seq<Nbr>, best: Option<Route>)
    | SendQueryOne(targets: seq<Nbr>, best: Option<Route>)
    | SendUpdates

  /** What the callers guarantee: REPLYs are handed to the state machine, and
      single QUERYs sent, only while the destination is ACTIVE. */
  predicate Enabled(d: Dest, step: Step) {
    match step
    case Receive(msg) => d.state == Passive ==> msg.kind != Reply
    case SendQueryOne(_, _) => d.state != Passive
    case _ => true
  }

  function Next(d: Dest, step: Step): Dest {
    match step
    case Receive(msg) => FsmEvent(d, msg)
    case Lost(msg, hasRoute) => NeighborDown(d, msg, hasRoute)
    case SendQueries(targets, best) => QueryPass(d, targets, best)
    case SendQueryOne(targets, best) => QueryOne(d, targets, best)
    case SendUpdates => UpdatePass(d)
  }

  predicate IsRun(d: Dest, steps: seq<Step>)
    decreases |steps|
  {
    steps != [] ==> Enabled(d, steps[0]) && IsRun(Next(d, steps[0]), steps[1..])
  }

  function After(d: Dest, steps: seq<Step>): Dest
    decreases |steps|
  {
    if steps == [] then d else After(Next(d, steps[0]), steps[1..])
  }
}
