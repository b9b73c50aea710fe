/**
 What every run of DUAL keeps: no destination is stranded ACTIVE, the feasible
 distance is disciplined, and every QUERY is answered, held, superseded or
 abandoned.
 */
module DualSafety {
  import opened Common
  import opened Dual

  /** An ACTIVE destination waits for somebody or will be queried, and whatever
      it still has to do is on the packetizer's list. */
  predicate NotStranded(d: Dest) {
    && (Active(d) ==> d.rij != [] || d.needQuery)
    && (d.needQuery || d.needUpdate ==> d.changes >= 1)
  }

  predicate DistancesOk(d: Dest) {
    d.fd <= d.distance == d.rdistance
  }

  /** An origin is held only in ACTIVE_2 and ACTIVE_3 ... */
  predicate OriginOk(d: Dest) {
    d.origin.Some? ==> HoldsOrigin(d.state)
  }

  /** ... and whenever one is due. */
  predicate OriginSet(d: Dest) {
    HoldsOrigin(d.state) ==> d.origin.Some?
  }

  function Held(d: Dest): nat { if d.origin.Some? then 1 else 0 }

  /** Every QUERY received is accounted for. */
  predicate Conserved(d: Dest) {
    var l := d.ledger;
    l.received == l.replied + l.superseded + l.abandoned + Held(d)
  }

  predicate NoDuplicates(rij: seq<Nbr>) {
    forall i, j :: 0 <= i < j < |rij| ==> rij[i] != rij[j]
  }

  predicate Inv(d: Dest) {
    && NotStranded(d) && DistancesOk(d) && OriginOk(d) && Conserved(d)
    && NoDuplicates(d.rij) && d.ledger.lrEarly == 0
  }

  // ----- the reply-status set -----

  lemma {:induction false} WithoutRemoves(rij: seq<Nbr>, n: Nbr)
    requires NoDuplicates(rij)
    ensures NoDuplicates(Without(rij, n))
    ensures forall k :: k in Without(rij, n) <==> k in rij && k != n
    ensures n in rij ==> |Without(rij, n)| == |rij| - 1
    ensures n !in rij ==> Without(rij, n) == rij
  {
    if rij != [] {
      assert rij == [rij[0]] + rij[1..];
      assert rij[0] !in rij[1..];
      WithoutRemoves(rij[1..], n);
    }
  }

  lemma {:induction false} WithAllAdds(rij: seq<Nbr>, ns: seq<Nbr>)
    requires NoDuplicates(rij)
    ensures NoDuplicates(WithAll(rij, ns))
    ensures forall k :: k in WithAll(rij, ns) <==> k in rij || k in ns
    decreases |ns|
  {
    if ns != [] {
      assert ns == [ns[0]] + ns[1..];
      WithAllAdds(With(rij, ns[0]), ns[1..]);
    }
  }

  // ----- one event -----

  lemma LrKeeps(d: Dest, best: Option<Route>)
    requires OriginOk(d) && Conserved(d) && d.rij == [] && d.ledger.lrEarly == 0
    ensures Inv(EventLr(d, best))
  {}

  lemma DiffuseKeeps(d: Dest, msg: Message)
    requires DistancesOk(d) && OriginOk(d) && Conserved(d) && d.rij == [] && d.ledger.lrEarly == 0
    ensures Inv(Diffuse(d, msg))
  {
    if msg.nbrCount == 0 { LrKeeps(d, msg.best); }
  }

  /** Events dispatched by the table keep the invariant, given the reply set that
      event selection leaves behind. */
  lemma PerformKeeps(d: Dest, e: Event, msg: Message)
    requires DistancesOk(d) && OriginOk(d) && NoDuplicates(d.rij) && d.ledger.lrEarly == 0
    requires d.needQuery || d.needUpdate ==> d.changes >= 1
    requires e == Table(d.state, e) && !e.Dinc?
    requires e == Keep || e == Qact ==> NotStranded(d)
    requires e == Lr || e == LrFcs || e == LrFcn ==> Active(d) && d.rij == [] && msg.kind != Query
    requires e == LrFcs ==> msg.selected.Some?
    requires e == NqFcn ==> msg.kind != Query
    requires e == QFcn || e == Qact ==> msg.kind == Query
    requires e == Keep && msg.kind == Query && Active(d) ==> !msg.successor
    requires if msg.kind == Query then d.ledger.received == 1 + d.ledger.replied + d.ledger.superseded + d.ledger.abandoned + Held(d)
             else Conserved(d)
    ensures Inv(Perform(d, e, msg))
  {
    match e
    case NqFcn => DiffuseKeeps(d.(state := Active1, rij := []), msg);
    case QFcn => DiffuseKeeps(d.(state := Active3, origin := Some(msg.from), rij := []), msg);
    case Lr => LrKeeps(d, msg.best);
    case LrFcn => DiffuseKeeps(d.(state := if d.state == Active0 then Active1 else Active3, rij := []), msg);
    case _ =>
  }

  /** Event selection only picks events that the table has for the state. */
  lemma SelectInTable(d: Dest, msg: Message, change: Change)
    ensures var (d1, e) := Select(d, msg, change);
            d1.state == d.state && Table(d1.state, e) == e
  {}

  /** A distance increase only changes the origin flag: the second look that
      `event_dinc` takes when nobody is waited for finds nothing to do. */
  lemma DincOnlyMoves(d: Dest, msg: Message)
    requires Select(d, msg, msg.change).1 == Dinc
    ensures Perform(d, Dinc, msg) == d.(state := if d.state == Active1 then Active0 else Active2)
    ensures Select(d, msg, msg.change).0 == d && (d.state == Active1 || d.state == Active3)
    ensures msg.kind == Update
  {
    var d1 := d.(state := if d.state == Active1 then Active0 else Active2);
    assert Select(d1, msg, msg.again) == (d1, Keep);
    assert Perform(d1, Keep, msg) == d1;
  }

  function Counted(d: Dest, msg: Message): Dest {
    if msg.kind == Query then d.(ledger := d.ledger.(received := d.ledger.received + 1)) else d
  }

  /** What `eigrp_fsm_event` comes to. */
  lemma EventIs(d: Dest, msg: Message)
    ensures var (d1, e) := Select(Counted(d, msg), msg, msg.change);
            FsmEvent(d, msg) == if e == Dinc then d1.(state := if d1.state == Active1 then Active0 else Active2)
                                else Perform(d1, e, msg)
  {
    var (d1, e) := Select(Counted(d, msg), msg, msg.change);
    SelectInTable(Counted(d, msg), msg, msg.change);
    if e == Dinc { DincOnlyMoves(Counted(d, msg), msg); }
  }

  lemma EventKeeps(d: Dest, msg: Message)
    requires Inv(d) && Enabled(d, Receive(msg))
    ensures Inv(FsmEvent(d, msg))
  {
    var (d1, e) := Select(Counted(d, msg), msg, msg.change);
    EventIs(d, msg);
    SelectInTable(Counted(d, msg), msg, msg.change);
    WithoutRemoves(d.rij, msg.from);
    if e.Dinc? {
      DincOnlyMoves(Counted(d, msg), msg);
    } else {
      PerformKeeps(d1, e, msg);
    }
  }

  lemma AbandonKeeps(d: Dest, n: Nbr)
    requires Inv(d)
    ensures Inv(Abandon(d, n))
    ensures Abandon(d, n).state == d.state && Abandon(d, n).rij == d.rij
  {}

  lemma LostReplyKeeps(d: Dest, msg: Message)
    requires Inv(d)
    ensures Inv(LostReply(d, msg))
  {
    if d.state != Passive && msg.from in d.rij {
      WithoutRemoves(d.rij, msg.from);
      var d1 := d.(rij := Without(d.rij, msg.from));
      if d1.rij == [] {
        if d.state == Active0 || d.state == Active2 {
          if msg.selected.None? {
            DiffuseKeeps(d1.(state := if d1.state == Active0 then Active1 else Active3), msg);
          }
        } else {
          LrKeeps(d1, msg.best);
        }
      }
    }
  }

  lemma LostKeeps(d: Dest, msg: Message, hasRoute: bool)
    requires Inv(d) && Enabled(d, Lost(msg, hasRoute))
    ensures Inv(NeighborDown(d, msg, hasRoute))
  {
    var d1 := Abandon(d, msg.from);
    AbandonKeeps(d, msg.from);
    if hasRoute {
      EventKeeps(d1, msg.(kind := if d.state == Passive then Update else Reply));
    } else {
      LostReplyKeeps(d1, msg);
    }
  }

  lemma QueryKeeps(d: Dest, targets: seq<Nbr>, best: Option<Route>)
    requires Inv(d)
    ensures d.needQuery ==> Inv(QueryPass(d, targets, best))
    ensures Inv(QueryOne(d, targets, best))
  {
    WithAllAdds(d.rij, targets);
    var d1 := d.(rij := WithAll(d.rij, targets));
    if d1.state != Passive && d1.rij == [] { LrKeeps(d1, best); }
  }

  /** Every step keeps every invariant. */
  lemma StepKeeps(d: Dest, step: Step)
    requires Inv(d) && Enabled(d, step)
    ensures Inv(Next(d, step))
  {
    match step
    case Receive(msg) => EventKeeps(d, msg);
    case Lost(msg, hasRoute) => LostKeeps(d, msg, hasRoute);
    case SendQueries(targets, best) => QueryKeeps(d, targets, best);
    case SendQueryOne(targets, best) => QueryKeeps(d, targets, best);
    case SendUpdates =>
  }

  /** DUAL never strands a destination, and keeps its distances and its ledger,
      over every run. */
  lemma {:induction false} RunKeeps(d: Dest, steps: seq<Step>)
    requires Inv(d) && IsRun(d, steps)
    ensures Inv(After(d, steps))
    decreases |steps|
  {
    if steps != [] {
      StepKeeps(d, steps[0]);
      RunKeeps(Next(d, steps[0]), steps[1..]);
    }
  }

  /** A destination as the UPDATE that introduces it leaves it. */
  lemma NewDestination(distance: nat, metric: Metric)
    ensures Inv(Dest(Passive, distance, distance, distance, metric, [], None, false, true, 1, NO_HISTORY))
  {}

  /** A destination that is cleared and queried anew starts ACTIVE_1 with nobody
      to wait for and no request to query: the QUERY sent for it alone brings it
      under the invariant, and it stays ACTIVE exactly when somebody was asked. */
  lemma RequerySettles(metric: Metric, targets: seq<Nbr>, best: Option<Route>)
    ensures var d := Dest(Active1, MAX_METRIC, MAX_METRIC, MAX_METRIC, metric, [], None, false, false, 0, NO_HISTORY);
            var d' := QueryOne(d, targets, best);
            && !NotStranded(d)
            && Inv(d') && (Active(d') <==> targets != []) && (Active(d') ==> d'.rij != [])
  {
    var d := Dest(Active1, MAX_METRIC, MAX_METRIC, MAX_METRIC, metric, [], None, false, false, 0, NO_HISTORY);
    WithAllAdds([], targets);
    var rij := WithAll([], targets);
    if targets != [] { assert targets[0] in rij; }
    if rij != [] { assert rij[0] in rij; } else { LrKeeps(d, best); }
  }

  /** Right after its query pass a destination is PASSIVE or waits for somebody. */
  lemma QueryPassSettles(d: Dest, targets: seq<Nbr>, best: Option<Route>)
    requires Inv(d)
    ensures var d' := QueryPass(d, targets, best);
            && !d'.needQuery
            && (Active(d') ==> d'.rij != [])
            && (Active(d) && d.needQuery ==> (Active(d') <==> d.rij != [] || targets != []))
  {
    WithAllAdds(d.rij, targets);
    if targets != [] { assert targets[0] in WithAll(d.rij, targets); }
    if d.rij != [] { assert d.rij[0] in WithAll(d.rij, targets); }
    if WithAll(d.rij, targets) != [] { assert WithAll(d.rij, targets)[0] in WithAll(d.rij, targets); }
  }

  // ----- distances -----

  predicate SameDistances(d: Dest, d': Dest) {
    d'.fd == d.fd && d'.distance == d.distance && d'.rdistance == d.rdistance && d'.metric == d.metric
  }

  lemma PerformFrozen(d: Dest, e: Event, msg: Message)
    requires e != Dinc && Active(Perform(d, e, msg))
    ensures SameDistances(d, Perform(d, e, msg))
  {
    match e
    case NqFcn => assert Diffuse(d.(state := Active1, rij := []), msg).state == Active1;
    case QFcn => assert Diffuse(d.(state := Active3, origin := Some(msg.from), rij := []), msg).state == Active3;
    case _ =>
  }

  lemma EventFrozen(d: Dest, msg: Message)
    requires Active(FsmEvent(d, msg))
    ensures SameDistances(d, FsmEvent(d, msg))
  {
    EventIs(d, msg);
    var (d1, e) := Select(Counted(d, msg), msg, msg.change);
    if e != Dinc { PerformFrozen(d1, e, msg); }
  }

  lemma LastLostFrozen(d: Dest, msg: Message)
    requires Active(LastLost(d, msg))
    ensures SameDistances(d, LastLost(d, msg))
  {}

  lemma LostFrozen(d: Dest, msg: Message, hasRoute: bool)
    requires Active(NeighborDown(d, msg, hasRoute))
    ensures SameDistances(d, NeighborDown(d, msg, hasRoute))
  {
    var d1 := Abandon(d, msg.from);
    if hasRoute {
      EventFrozen(d1, msg.(kind := if d.state == Passive then Update else Reply));
    } else if Active(d) && msg.from in d.rij && Without(d.rij, msg.from) == [] {
      LastLostFrozen(d1.(rij := []), msg);
    }
  }

  lemma QueryFrozen(d: Dest, targets: seq<Nbr>, best: Option<Route>)
    ensures Active(QueryPass(d, targets, best)) ==> SameDistances(d, QueryPass(d, targets, best))
    ensures Active(QueryOne(d, targets, best)) ==> SameDistances(d, QueryOne(d, targets, best))
  {}

  /** The destination's distances are frozen by every step that leaves it ACTIVE
      (a step may also enter ACTIVE). */
  lemma FrozenInActive(d: Dest, step: Step)
    requires Active(Next(d, step))
    ensures SameDistances(d, Next(d, step))
  {
    match step
    case Receive(msg) => EventFrozen(d, msg);
    case Lost(msg, hasRoute) => LostFrozen(d, msg, hasRoute);
    case SendQueries(targets, best) => QueryFrozen(d, targets, best);
    case SendQueryOne(targets, best) => QueryFrozen(d, targets, best);
    case SendUpdates =>
  }

  predicate ActiveThroughout(d: Dest, steps: seq<Step>)
    decreases |steps|
  {
    steps != [] ==> Active(Next(d, steps[0])) && ActiveThroughout(Next(d, steps[0]), steps[1..])
  }

  /** From entering ACTIVE until the step that returns to PASSIVE nothing moves. */
  lemma {:induction false} FrozenRun(d: Dest, steps: seq<Step>)
    requires ActiveThroughout(d, steps)
    ensures SameDistances(d, After(d, steps))
    decreases |steps|
  {
    if steps != [] {
      FrozenInActive(d, steps[0]);
      FrozenRun(Next(d, steps[0]), steps[1..]);
    }
  }

  /** Either `event_lr` ran once more, or the feasible distance did not rise. */
  predicate FdDiscipline(d: Dest, d': Dest) {
    || d'.ledger.lrRuns == d.ledger.lrRuns + 1
    || (d'.ledger.lrRuns == d.ledger.lrRuns && d'.fd <= d.fd)
  }

  lemma PerformFd(d: Dest, e: Event, msg: Message)
    requires e != Dinc
    ensures FdDiscipline(d, Perform(d, e, msg))
  {}

  lemma EventFd(d: Dest, msg: Message)
    ensures FdDiscipline(d, FsmEvent(d, msg))
  {
    EventIs(d, msg);
    var (d1, e) := Select(Counted(d, msg), msg, msg.change);
    if e != Dinc { PerformFd(d1, e, msg); }
  }

  lemma LostFd(d: Dest, msg: Message, hasRoute: bool)
    ensures FdDiscipline(d, NeighborDown(d, msg, hasRoute))
  {
    var d1 := Abandon(d, msg.from);
    if hasRoute {
      EventFd(d1, msg.(kind := if d.state == Passive then Update else Reply));
    } else {
      LostReplyFd(d1, msg);
    }
  }

  lemma LostReplyFd(d: Dest, msg: Message)
    ensures FdDiscipline(d, LostReply(d, msg))
  {}

  /** The feasible distance rises only in a step that runs `event_lr`; with
      `lrEarly == 0` in the invariant, only once the reply set is empty. */
  lemma FdRisesOnlyByLr(d: Dest, step: Step)
    ensures Next(d, step).fd > d.fd ==> Next(d, step).ledger.lrRuns == d.ledger.lrRuns + 1
  {
    match step
    case Receive(msg) => EventFd(d, msg);
    case Lost(msg, hasRoute) => LostFd(d, msg, hasRoute);
    case _ =>
  }

  // ----- the query origin -----

  /** The lost neighbor's outstanding REPLY does not end the computation. */
  predicate Continues(d: Dest, msg: Message, hasRoute: bool) {
    || Without(d.rij, msg.from) != []
    || (!hasRoute && msg.from !in d.rij)
    || (d.state == Active2 && msg.selected.None? && msg.nbrCount > 0)
  }

  /** The one way to end up in ACTIVE_2 or ACTIVE_3 without an origin: losing it
      while the computation goes on. */
  predicate LosesOrigin(d: Dest, step: Step) {
    && step.Lost? && HoldsOrigin(d.state) && d.origin == Some(step.msg.from)
    && Continues(d, step.msg, step.hasRoute)
  }

  lemma EventOrigin(d: Dest, msg: Message)
    requires OriginSet(d) && (msg.kind == Reply ==> Active(d))
    ensures OriginSet(FsmEvent(d, msg))
  {
    EventIs(d, msg);
  }

  lemma LostOrigin(d: Dest, msg: Message, hasRoute: bool)
    requires Inv(d) && HoldsOrigin(d.state) && d.origin == Some(msg.from)
    ensures OriginSet(NeighborDown(d, msg, hasRoute)) <==> !Continues(d, msg, hasRoute)
  {
    WithoutRemoves(d.rij, msg.from);
    var d1 := Abandon(d, msg.from);
    if hasRoute {
      LastReplyOrigin(d1, msg.(kind := Reply));
    } else if msg.from in d.rij && Without(d.rij, msg.from) == [] {
      LastLostOrigin(d1.(rij := []), msg);
    }
  }

  /** Without an origin, the last REPLY leaves a destination in ACTIVE_3 exactly
      when another round starts. */
  lemma LastLostOrigin(d: Dest, msg: Message)
    requires HoldsOrigin(d.state) && d.origin == None
    ensures OriginSet(LastLost(d, msg)) <==> !(d.state == Active2 && msg.selected.None? && msg.nbrCount > 0)
  {}

  lemma LastReplyOrigin(d: Dest, msg: Message)
    requires HoldsOrigin(d.state) && d.origin == None && msg.kind == Reply
    ensures OriginSet(FsmEvent(d, msg)) <==>
            Without(d.rij, msg.from) == [] && !(d.state == Active2 && msg.selected.None? && msg.nbrCount > 0)
  {
    var d1 := d.(rij := Without(d.rij, msg.from));
    EventIs(d, msg);
    if d1.rij == [] {
      LastReplyIsLost(d1, msg);
      LastLostOrigin(d1, msg);
    }
  }

  /** The last REPLY and the loss of its sender run the same action. */
  lemma LastReplyIsLost(d: Dest, msg: Message)
    requires Active(d)
    ensures Perform(d, LastEvent(d.state, msg), msg) == LastLost(d, msg)
  {}

  function LastEvent(s: State, msg: Message): Event {
    if s == Active1 || s == Active3 then Lr else if msg.selected.Some? then LrFcs else LrFcn
  }

  lemma OtherLost(d: Dest, msg: Message, hasRoute: bool)
    requires Inv(d) && OriginSet(d) && !(HoldsOrigin(d.state) && d.origin == Some(msg.from))
    ensures OriginSet(NeighborDown(d, msg, hasRoute))
  {
    assert Abandon(d, msg.from) == d;
    if hasRoute {
      EventOrigin(d, msg.(kind := if d.state == Passive then Update else Reply));
    }
  }

  /** A step keeps the origin set exactly in ACTIVE_2 and ACTIVE_3, unless it
      loses the origin while the computation goes on -- and then it does not. */
  lemma OriginKeptExactly(d: Dest, step: Step)
    requires Inv(d) && Enabled(d, step) && OriginSet(d)
    ensures OriginSet(Next(d, step)) <==> !LosesOrigin(d, step)
  {
    match step
    case Receive(msg) => EventOrigin(d, msg);
    case Lost(msg, hasRoute) =>
      if HoldsOrigin(d.state) && d.origin == Some(msg.from) {
        LostOrigin(d, msg, hasRoute);
      } else {
        OtherLost(d, msg, hasRoute);
      }
    case _ =>
  }

  predicate KeepsOrigins(d: Dest, steps: seq<Step>)
    decreases |steps|
  {
    steps != [] ==> !LosesOrigin(d, steps[0]) && KeepsOrigins(Next(d, steps[0]), steps[1..])
  }

  /** On every run that loses no origin this way, the origin is set exactly in
      ACTIVE_2 and ACTIVE_3. */
  lemma {:induction false} OriginExactlyWhenDue(d: Dest, steps: seq<Step>)
    requires Inv(d) && OriginSet(d) && IsRun(d, steps) && KeepsOrigins(d, steps)
    ensures After(d, steps).origin.Some? <==> HoldsOrigin(After(d, steps).state)
    decreases |steps|
  {
    if steps != [] {
      StepKeeps(d, steps[0]);
      OriginKeptExactly(d, steps[0]);
      OriginExactlyWhenDue(Next(d, steps[0]), steps[1..]);
    }
  }

  const ORIGIN_LOST: seq<Step> :=
    [Receive(Message(Query, 1, true, Increase, Same, None, None, 2)),
     Lost(Message(Update, 1, false, Same, Same, None, None, 1), false)]

  /** A QUERY from neighbor 1 starts a computation, and neighbor 1 is lost before
      anybody was asked: ACTIVE_3 without an origin. */
  lemma OriginLostRun(distance: nat, metric: Metric)
    requires distance < MAX_METRIC
    ensures var d := Dest(Passive, distance, distance, distance, metric, [], None, false, true, 1, NO_HISTORY);
            && IsRun(d, ORIGIN_LOST)
            && After(d, ORIGIN_LOST).state == Active3 && After(d, ORIGIN_LOST).origin == None
  {
    var d := Dest(Passive, distance, distance, distance, metric, [], None, false, true, 1, NO_HISTORY);
    var d1 := Next(d, ORIGIN_LOST[0]);
    assert d1.state == Active3 && d1.origin == Some(1) && d1.rij == [];
    assert ORIGIN_LOST[1..][0] == ORIGIN_LOST[1] && ORIGIN_LOST[1..][1..] == [];
    var d2 := Next(d1, ORIGIN_LOST[1]);
    assert After(d, ORIGIN_LOST) == After(d1, ORIGIN_LOST[1..]) == d2;
  }

  // ----- deferred replies -----

  function DeferredBy(d: Dest, d': Dest): seq<Nbr> {
    if d'.state == Passive && d.origin.Some? then [d.origin.value] else []
  }

  lemma PerformDeferred(d: Dest, e: Event, msg: Message)
    requires e != Dinc && e == Table(d.state, e) && HoldsOrigin(d.state)
    requires e == LrFcs ==> msg.selected.Some?
    ensures Perform(d, e, msg).ledger.deferred == d.ledger.deferred + DeferredBy(d, Perform(d, e, msg))
  {}

  lemma EventDeferred(d: Dest, msg: Message)
    requires HoldsOrigin(d.state)
    ensures FsmEvent(d, msg).ledger.deferred == d.ledger.deferred + DeferredBy(d, FsmEvent(d, msg))
  {
    EventIs(d, msg);
    SelectInTable(Counted(d, msg), msg, msg.change);
    var (d1, e) := Select(Counted(d, msg), msg, msg.change);
    if e != Dinc { PerformDeferred(d1, e, msg); }
  }

  /** The destination once a lost neighbor is no longer its origin. */
  function Owing(d: Dest, step: Step): Dest {
    if step.Lost? then Abandon(d, step.msg.from) else d
  }

  lemma LostDeferred(d: Dest, msg: Message, hasRoute: bool)
    requires HoldsOrigin(d.state)
    ensures var d' := NeighborDown(d, msg, hasRoute);
            d'.ledger.deferred == d.ledger.deferred + DeferredBy(Abandon(d, msg.from), d')
  {
    var d1 := Abandon(d, msg.from);
    if hasRoute {
      EventDeferred(d1, msg.(kind := Reply));
    } else {
      LostReplyDeferred(d1, msg);
    }
  }

  lemma LostReplyDeferred(d: Dest, msg: Message)
    requires HoldsOrigin(d.state)
    ensures LostReply(d, msg).ledger.deferred == d.ledger.deferred + DeferredBy(d, LostReply(d, msg))
  {}

  /** A return to PASSIVE from ACTIVE_2 or ACTIVE_3 sends exactly one deferred
      REPLY, to the origin held -- none when the origin was lost, in this step
      or before. No other step from there sends one. */
  lemma DeferredReplyOnce(d: Dest, step: Step)
    requires HoldsOrigin(d.state)
    ensures Next(d, step).ledger.deferred == d.ledger.deferred + DeferredBy(Owing(d, step), Next(d, step))
  {
    match step
    case Receive(msg) => EventDeferred(d, msg);
    case Lost(msg, hasRoute) => LostDeferred(d, msg, hasRoute);
    case _ =>
  }

  // ----- convergence of one diffusing computation -----

  /** REPLYs from distinct neighbors that are all waited for. */
  predicate AreReplies(msgs: seq<Message>, rij: seq<Nbr>) {
    && (forall i :: 0 <= i < |msgs| ==> msgs[i].kind == Reply && msgs[i].from in rij)
    && (forall i, j :: 0 <= i < j < |msgs| ==> msgs[i].from != msgs[j].from)
  }

  function Received(msgs: seq<Message>): seq<Step> {
    seq(|msgs|, i requires 0 <= i < |msgs| => Receive(msgs[i]))
  }

  /** A REPLY that is not the last changes the reply set and nothing else. */
  lemma EarlierReply(d: Dest, msg: Message)
    requires Active(d) && msg.kind == Reply && Without(d.rij, msg.from) != []
    ensures FsmEvent(d, msg) == d.(rij := Without(d.rij, msg.from))
  {}

  /** While somebody is still waited for, nothing but the reply set moves; the
      REPLY that empties it ends the computation: ACTIVE_1 and ACTIVE_3 return to
      PASSIVE, ACTIVE_0 and ACTIVE_2 return or start exactly one more round. */
  lemma {:induction false} RepliesConverge(d: Dest, msgs: seq<Message>)
    requires Active(d) && NoDuplicates(d.rij) && AreReplies(msgs, d.rij) && 0 < |msgs| <= |d.rij|
    ensures var d' := After(d, Received(msgs));
            if |msgs| < |d.rij| then d' == d.(rij := d'.rij) && |d'.rij| == |d.rij| - |msgs|
            else if d.state == Active1 || d.state == Active3 || msgs[|msgs| - 1].selected.Some? then d'.state == Passive
            else d'.state == Passive || (d'.needQuery && d'.state == if d.state == Active0 then Active1 else Active3)
    decreases |msgs|
  {
    var msg, rest := msgs[0], msgs[1..];
    WithoutRemoves(d.rij, msg.from);
    assert Received(msgs)[1..] == Received(rest);
    assert Received(msgs)[0] == Receive(msg);
    var d1 := FsmEvent(d, msg);
    if |d.rij| > 1 {
      EarlierReply(d, msg);
      if rest != [] {
        RepliesConverge(d1, rest);
      } else {
        assert After(d1, Received(rest)) == d1;
      }
    } else {
      assert rest == [];
      assert After(d1, Received(rest)) == d1;
      LastReplyEnds(d, msg);
    }
  }

  /** The REPLY that empties the reply set. */
  lemma LastReplyEnds(d: Dest, msg: Message)
    requires Active(d) && msg.kind == Reply && Without(d.rij, msg.from) == []
    ensures var d' := FsmEvent(d, msg);
            if d.state == Active1 || d.state == Active3 || msg.selected.Some? then d'.state == Passive
            else d'.state == Passive || (d'.needQuery && d'.state == if d.state == Active0 then Active1 else Active3)
  {
    EventIs(d, msg);
    LastReplyIsLost(d.(rij := []), msg);
  }

  /** A REPLY completes ACTIVE_1 or ACTIVE_3 exactly when nobody else is waited
      for -- also when nobody was asked yet. */
  lemma ReplyCompletesExactly(d: Dest, msg: Message)
    requires (d.state == Active1 || d.state == Active3) && NoDuplicates(d.rij) && msg.kind == Reply
    ensures FsmEvent(d, msg).state == Passive <==> forall n :: n in d.rij ==> n == msg.from
  {
    WithoutRemoves(d.rij, msg.from);
    EventIs(d, msg);
    var r := Without(d.rij, msg.from);
    if r != [] { assert r[0] in r; }
  }

  /** A REPLY (or the loss of a neighbor with a path) that arrives before the
      query pass ends the computation without a single QUERY: the distances are
      reset while the request to query is still set. */
  lemma UnqueriedCompletion(d: Dest, msg: Message)
    requires Inv(d) && (d.state == Active1 || d.state == Active3) && d.rij == [] && msg.kind == Reply
    ensures d.needQuery
    ensures var d' := FsmEvent(d, msg);
            d'.state == Passive && d'.needQuery && d'.ledger.lrRuns == d.ledger.lrRuns + 1
  {
    EventIs(d, msg);
  }

  /** After such a completion the query pass still asks: a PASSIVE destination
      then waits for replies it does not need, exactly when it was to query and
      somebody was asked. */
  lemma QueriedAtRest(d: Dest, targets: seq<Nbr>, best: Option<Route>)
    requires Inv(d) && (d.state == Passive ==> d.rij == [])
    ensures var d' := QueryPass(d, targets, best);
            d'.state == Passive && d'.rij != [] <==> d.state == Passive && d.needQuery && targets != []
  {
    WithAllAdds(d.rij, targets);
    if targets != [] { assert targets[0] in WithAll(d.rij, targets); }
    if WithAll(d.rij, targets) != [] { assert WithAll(d.rij, targets)[0] in WithAll(d.rij, targets); }
  }
}
