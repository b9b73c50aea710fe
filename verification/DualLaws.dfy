/**
 What each step of DUAL does, told without events, tables or event functions: when
 a destination enters and leaves ACTIVE, which distance it then has, whom it waits
 for and whom it answers. Together the laws fix every field of the new record.
 */
module DualLaws {
  import opened Common
  import opened Dual
  import opened DualSafety

  // ----- what a step means -----

  /** The step shows the state machine a changed path: a message, or the poisoned
      path of a lost neighbor. */
  predicate IsEvent(step: Step) { step.Receive? || (step.Lost? && step.hasRoute) }

  predicate IsQuery(step: Step) { step.Receive? && step.msg.kind == Query }

  /** No route of a PASSIVE destination meets the feasibility condition any more. */
  predicate Infeasible(d: Dest, step: Step) {
    && d.state == Passive && IsEvent(step)
    && step.msg.change != Same && step.msg.selected.None? && d.fd != MAX_METRIC
  }

  /** The answer of the last neighbor waited for, or its loss. */
  predicate LastIn(d: Dest, step: Step) {
    && Active(d)
    && ((step.Receive? && step.msg.kind == Reply) || (step.Lost? && (step.hasRoute || step.msg.from in d.rij)))
    && forall n :: n in d.rij ==> n == step.msg.from
  }

  /** The query pass of an ACTIVE destination finds nobody to ask or to wait for. */
  predicate NobodyAsked(d: Dest, step: Step) {
    && Active(d) && d.rij == []
    && ((step.SendQueries? && d.needQuery && step.targets == []) || (step.SendQueryOne? && step.targets == []))
  }

  /** A computation whose first round was overtaken by an increase or a QUERY must
      look at the feasibility condition again. */
  predicate Overtaken(s: State) { s == Active0 || s == Active2 }

  predicate Enters(d: Dest, step: Step) { Infeasible(d, step) && step.msg.nbrCount > 0 }

  predicate Repeats(d: Dest, step: Step) {
    LastIn(d, step) && Overtaken(d.state) && step.msg.selected.None? && step.msg.nbrCount > 0
  }

  predicate EndsFeasible(d: Dest, step: Step) {
    LastIn(d, step) && Overtaken(d.state) && step.msg.selected.Some?
  }

  /** The computation is over and the best route is taken whatever it is. */
  predicate EndsOpen(d: Dest, step: Step) {
    || NobodyAsked(d, step)
    || (Infeasible(d, step) && step.msg.nbrCount == 0)
    || (LastIn(d, step) && (!Overtaken(d.state) || (step.msg.selected.None? && step.msg.nbrCount == 0)))
  }

  predicate Ends(d: Dest, step: Step) { EndsFeasible(d, step) || EndsOpen(d, step) }

  /** The successor asks, or gets worse, while the destination is ACTIVE. */
  predicate AskedBySuccessor(d: Dest, step: Step) { Active(d) && IsQuery(step) && step.msg.successor }

  predicate SuccessorWorse(d: Dest, step: Step) {
    && (d.state == Active1 || d.state == Active3) && step.Receive? && step.msg.kind == Update
    && step.msg.successor && step.msg.change == Increase
  }

  predicate Moves(d: Dest, step: Step) {
    Ends(d, step) || Enters(d, step) || Repeats(d, step) || AskedBySuccessor(d, step) || SuccessorWorse(d, step)
  }

  function BestOf(step: Step): Option<Route>
    requires !step.SendUpdates?
  {
    match step
    case Receive(msg) => msg.best
    case Lost(msg, _) => msg.best
    case SendQueries(_, best) => best
    case SendQueryOne(_, best) => best
  }

  // ----- the laws -----

  /** When a destination enters ACTIVE, moves within it, and returns. */
  predicate StateLaw(d: Dest, step: Step, d': Dest) {
    && (Ends(d, step) ==> d'.state == Passive)
    && (Enters(d, step) ==> d'.state == if IsQuery(step) then Active3 else Active1)
    && (Repeats(d, step) ==> d'.state == if d.state == Active0 then Active1 else Active3)
    && (AskedBySuccessor(d, step) ==> d'.state == Active2)
    && (SuccessorWorse(d, step) ==> d'.state == if d.state == Active1 then Active0 else Active2)
    && (!Moves(d, step) ==> d'.state == d.state)
  }

  /** The best route, or none, is what the destination now has. */
  predicate Installed(d': Dest, best: Option<Route>) {
    match best
    case Some(route) =>
      d'.fd == route.distance && d'.distance == route.distance && d'.rdistance == route.distance
      && d'.metric == route.total
    case None =>
      d'.fd == 0xffff_ffff && d'.distance == 0xffff_ffff && d'.rdistance == 0xffff_ffff
      && d'.metric == UNREACHABLE_METRIC
  }

  /** The route is followed while FD stays the least distance seen. */
  predicate Follows(d: Dest, d': Dest, route: Route) {
    && d'.distance == route.distance && d'.rdistance == route.distance && d'.metric == route.total
    && d'.fd <= d.fd && d'.fd <= route.distance && (d'.fd == d.fd || d'.fd == route.distance)
  }

  /** A PASSIVE destination goes on with a feasible route, or else with the best. */
  function RouteAtRest(step: Step): Option<Route>
    requires IsEvent(step)
  {
    if step.msg.selected.Some? then step.msg.selected else step.msg.best
  }

  predicate RouteChanges(d: Dest, step: Step) {
    && d.state == Passive && IsEvent(step) && !Infeasible(d, step)
    && RouteAtRest(step).Some? && RouteAtRest(step).value.total != d.metric
  }

  /** Which distance a destination has after a step. */
  predicate DistanceLaw(d: Dest, step: Step, d': Dest) {
    && (EndsOpen(d, step) ==> !step.SendUpdates? && Installed(d', BestOf(step)))
    && (EndsFeasible(d, step) ==> Follows(d, d', step.msg.selected.value))
    && (RouteChanges(d, step) ==> Follows(d, d', RouteAtRest(step).value))
    && (!Ends(d, step) && !RouteChanges(d, step) ==> SameDistances(d, d'))
    && d'.ledger.lrRuns == d.ledger.lrRuns + (if EndsOpen(d, step) then 1 else 0)
  }

  /** Whom a destination waits for after a step. */
  predicate AwaitedAfter(d: Dest, step: Step, n: Nbr) {
    if Ends(d, step) || Enters(d, step) || Repeats(d, step) then false
    else match step
      case Receive(msg) => n in d.rij && (Active(d) && msg.kind == Reply ==> n != msg.from)
      case Lost(msg, _) => n in d.rij && (Active(d) ==> n != msg.from)
      case SendQueries(targets, _) => n in d.rij || (d.needQuery && n in targets)
      case SendQueryOne(targets, _) => n in d.rij || n in targets
      case SendUpdates => n in d.rij
  }

  ghost predicate AwaitedLaw(d: Dest, step: Step, d': Dest) {
    forall n :: n in d'.rij <==> AwaitedAfter(d, step, n)
  }

  /** Whose QUERY is held for a later answer. */
  predicate OriginLaw(d: Dest, step: Step, d': Dest) {
    d'.origin ==
      if Ends(d, step) then None
      else if (Enters(d, step) && IsQuery(step)) || AskedBySuccessor(d, step) then Some(step.msg.from)
      else if step.Lost? && d.origin == Some(step.msg.from) then None
      else d.origin
  }

  /** What is left for the packetizer. */
  predicate RequestLaw(d: Dest, step: Step, d': Dest) {
    && (d'.needQuery <==> !step.SendQueries? && (d.needQuery || Enters(d, step) || Repeats(d, step)))
    && (d'.needUpdate <==> !step.SendUpdates? && (d.needUpdate || Ends(d, step) || RouteChanges(d, step)))
    && (step.SendQueries? || step.SendUpdates? ==> d'.changes > 0 ==> d'.needQuery || d'.needUpdate)
  }

  /** The QUERY whose answer is due when the computation ends with this step. */
  function DueTo(d: Dest, step: Step): Option<Nbr> {
    if IsQuery(step) && d.state == Passive then Some(step.msg.from)
    else if step.Lost? && d.origin == Some(step.msg.from) then None
    else d.origin
  }

  predicate AnsweredAtOnce(d: Dest, step: Step) {
    IsQuery(step) && if Active(d) then !step.msg.successor else !Infeasible(d, step)
  }

  /** Which QUERYs are answered, and which are not. */
  predicate AnswerLaw(d: Dest, step: Step, d': Dest) {
    var answer := if Ends(d, step) && DueTo(d, step).Some? then [DueTo(d, step).value] else [];
    && d'.ledger.received == d.ledger.received + (if IsQuery(step) then 1 else 0)
    && d'.ledger.deferred == d.ledger.deferred + answer
    && d'.ledger.replied == d.ledger.replied + |answer| + (if AnsweredAtOnce(d, step) then 1 else 0)
    && d'.ledger.superseded
         == d.ledger.superseded + (if AskedBySuccessor(d, step) && d.origin.Some? then 1 else 0)
    && d'.ledger.abandoned
         == d.ledger.abandoned + (if step.Lost? && d.origin == Some(step.msg.from) then 1 else 0)
  }

  ghost predicate Lawful(d: Dest, step: Step, d': Dest) {
    && StateLaw(d, step, d') && DistanceLaw(d, step, d') && AwaitedLaw(d, step, d')
    && OriginLaw(d, step, d') && RequestLaw(d, step, d') && AnswerLaw(d, step, d')
  }

  // ----- what the laws come to over runs -----

  function Least(a: nat, b: nat): nat { if a < b then a else b }

  /** The least distance the destination had on the run. */
  function LeastDistance(d: Dest, steps: seq<Step>): nat
    decreases |steps|
  {
    if steps == [] then d.distance else Least(d.distance, LeastDistance(Next(d, steps[0]), steps[1..]))
  }

  predicate NeverOpen(d: Dest, steps: seq<Step>)
    decreases |steps|
  {
    steps != [] ==> !EndsOpen(d, steps[0]) && NeverOpen(Next(d, steps[0]), steps[1..])
  }

  /** The feasible distance is the least distance since a computation last ended
      with whatever route was best; at that end it equals the distance. */
  lemma {:induction false} FdIsLeast(d: Dest, steps: seq<Step>)
    requires Inv(d) && IsRun(d, steps) && NeverOpen(d, steps)
    ensures After(d, steps).fd == Least(d.fd, LeastDistance(d, steps))
    decreases |steps|
  {
    if steps != [] {
      var d' := Next(d, steps[0]);
      StepLawful(d, steps[0]);
      StepKeeps(d, steps[0]);
      assert d'.fd == Least(d.fd, d'.distance);
      FdIsLeast(d', steps[1..]);
      assert LeastDistance(d', steps[1..]) <= d'.distance;
    }
  }

  // ----- the proof -----

  /** The last answer, as a fact about the list. */
  lemma LastInIs(rij: seq<Nbr>, from: Nbr)
    requires NoDuplicates(rij)
    ensures Without(rij, from) == [] <==> forall n :: n in rij ==> n == from
  {
    WithoutRemoves(rij, from);
    var r := Without(rij, from);
    assert r != [] ==> r[0] in r;
  }

  lemma InfeasibleLawful(d: Dest, msg: Message)
    requires Inv(d) && Infeasible(d, Receive(msg)) && msg.kind != Reply
    ensures Lawful(d, Receive(msg), FsmEvent(d, msg))
  {
    EventIs(d, msg);
    var d0 := Counted(d, msg).(state := Active1, rij := []);
    var d' := FsmEvent(d, msg);
    assert d' == Diffuse(if msg.kind == Query then d0.(state := Active3, origin := Some(msg.from)) else d0, msg);
  }

  lemma RestLawful(d: Dest, msg: Message)
    requires Inv(d) && d.state == Passive && !Infeasible(d, Receive(msg)) && msg.kind != Reply
    ensures Lawful(d, Receive(msg), FsmEvent(d, msg))
  {
    EventIs(d, msg);
    assert FsmEvent(d, msg) == EventKeep(Counted(d, msg), msg);
  }

  lemma PassiveLawful(d: Dest, msg: Message)
    requires Inv(d) && d.state == Passive && msg.kind != Reply
    ensures Lawful(d, Receive(msg), FsmEvent(d, msg))
  {
    if Infeasible(d, Receive(msg)) { InfeasibleLawful(d, msg); } else { RestLawful(d, msg); }
  }

  lemma LastOpenLawful(d: Dest, msg: Message)
    requires Inv(d) && msg.kind == Reply && LastIn(d, Receive(msg)) && !Overtaken(d.state)
    ensures Lawful(d, Receive(msg), EventLr(d.(rij := []), msg.best))
  {}

  lemma LastFeasibleLawful(d: Dest, msg: Message)
    requires Inv(d) && msg.kind == Reply && LastIn(d, Receive(msg)) && Overtaken(d.state) && msg.selected.Some?
    ensures Lawful(d, Receive(msg), EventLrFcs(d.(rij := []), msg.selected.value))
  {}

  lemma LastInfeasibleLawful(d: Dest, msg: Message)
    requires Inv(d) && msg.kind == Reply && LastIn(d, Receive(msg)) && Overtaken(d.state) && msg.selected.None?
    ensures Lawful(d, Receive(msg), EventLrFcn(d.(rij := []), msg))
  {}

  lemma LastLawful(d: Dest, msg: Message)
    requires Inv(d) && msg.kind == Reply && LastIn(d, Receive(msg))
    ensures Lawful(d, Receive(msg), LastLost(d.(rij := []), msg))
  {
    if !Overtaken(d.state) { LastOpenLawful(d, msg); }
    else if msg.selected.Some? { LastFeasibleLawful(d, msg); }
    else { LastInfeasibleLawful(d, msg); }
  }

  lemma ReplyLawful(d: Dest, msg: Message)
    requires Inv(d) && Active(d) && msg.kind == Reply
    ensures Lawful(d, Receive(msg), FsmEvent(d, msg))
  {
    LastInIs(d.rij, msg.from);
    if Without(d.rij, msg.from) == [] {
      LastLawful(d, msg);
      LastReply(d, msg);
    } else {
      EarlierReply(d, msg);
      WithoutRemoves(d.rij, msg.from);
    }
  }

  lemma LastReply(d: Dest, msg: Message)
    requires Active(d) && msg.kind == Reply && Without(d.rij, msg.from) == []
    ensures FsmEvent(d, msg) == LastLost(d.(rij := []), msg)
  {
    EventIs(d, msg);
    LastReplyIsLost(d.(rij := []), msg);
  }

  lemma ActiveLawful(d: Dest, msg: Message)
    requires Inv(d) && Active(d) && msg.kind != Reply
    ensures Lawful(d, Receive(msg), FsmEvent(d, msg))
  {
    EventIs(d, msg);
  }

  /** A loss obeys the law of the message it stands for. */
  lemma LossIsMessage(d: Dest, msg: Message, m: Message, hasRoute: bool, d': Dest)
    requires m == msg.(kind := if d.state == Passive then Update else Reply)
    requires hasRoute || (Active(d) && msg.from in d.rij)
    requires Inv(d) && Lawful(Abandon(d, msg.from), Receive(m), d')
    ensures Lawful(d, Lost(msg, hasRoute), d')
  {
    var d1, step, step1 := Abandon(d, msg.from), Lost(msg, hasRoute), Receive(m);
    SameMeaning(d, msg, m, hasRoute);
    assert AwaitedLaw(d, step, d') by {
      forall n ensures AwaitedAfter(d, step, n) == AwaitedAfter(d1, step1, n) {}
    }
    assert StateLaw(d, step, d') && DistanceLaw(d, step, d');
  }

  lemma SameMeaning(d: Dest, msg: Message, m: Message, hasRoute: bool)
    requires m == msg.(kind := if d.state == Passive then Update else Reply)
    requires hasRoute || (Active(d) && msg.from in d.rij)
    ensures var d1, step, step1 := Abandon(d, msg.from), Lost(msg, hasRoute), Receive(m);
            && Enters(d, step) == Enters(d1, step1) && Repeats(d, step) == Repeats(d1, step1)
            && EndsOpen(d, step) == EndsOpen(d1, step1) && EndsFeasible(d, step) == EndsFeasible(d1, step1)
            && RouteChanges(d, step) == RouteChanges(d1, step1)
            && !SuccessorWorse(d1, step1)
  {}

  lemma LostLawful(d: Dest, msg: Message, hasRoute: bool)
    requires Inv(d)
    ensures Lawful(d, Lost(msg, hasRoute), NeighborDown(d, msg, hasRoute))
  {
    var d1 := Abandon(d, msg.from);
    var m := msg.(kind := if d.state == Passive then Update else Reply);
    AbandonKeeps(d, msg.from);
    if hasRoute || (Active(d) && msg.from in d.rij) {
      if d.state == Passive { PassiveLawful(d1, m); } else { ReplyLawful(d1, m); }
      LossIsMessage(d, msg, m, hasRoute, FsmEvent(d1, m));
      if !hasRoute { LossIsReply(d1, msg); }
    } else {
      NoLossLawful(d, msg);
    }
  }

  lemma NoLossLawful(d: Dest, msg: Message)
    requires Inv(d) && (Active(d) ==> msg.from !in d.rij)
    ensures Lawful(d, Lost(msg, false), NeighborDown(d, msg, false))
  {
    assert NeighborDown(d, msg, false) == Abandon(d, msg.from);
  }

  lemma LossIsReply(d: Dest, msg: Message)
    requires Inv(d) && Active(d) && msg.from in d.rij
    ensures LostReply(d, msg) == FsmEvent(d, msg.(kind := Reply))
  {
    var m := msg.(kind := Reply);
    if Without(d.rij, msg.from) == [] { LastReply(d, m); } else { EarlierReply(d, m); }
  }

  /** Asking changes the reply set, and ends the computation if it stays empty. */
  lemma AskedLawful(d: Dest, step: Step, targets: seq<Nbr>, best: Option<Route>, rij: seq<Nbr>)
    requires Inv(d)
    requires (step == SendQueries(targets, best) && d.needQuery) || (step == SendQueryOne(targets, best) && Active(d))
    requires forall n :: n in rij <==> n in d.rij || n in targets
    requires rij == [] <==> d.rij == [] && targets == []
    ensures var d1 := QuerySent(d.(rij := rij), best);
            var changes := if step.SendQueries? && !d1.needUpdate then 0 else d1.changes;
            Lawful(d, step, d1.(needQuery := d1.needQuery && !step.SendQueries?, changes := changes))
  {}

  lemma QueryLawful(d: Dest, targets: seq<Nbr>, best: Option<Route>)
    requires Inv(d)
    ensures Lawful(d, SendQueries(targets, best), QueryPass(d, targets, best))
    ensures Active(d) ==> Lawful(d, SendQueryOne(targets, best), QueryOne(d, targets, best))
  {
    WithAllAdds(d.rij, targets);
    var r := WithAll(d.rij, targets);
    assert r != [] ==> r[0] in r;
    assert targets != [] ==> targets[0] in r;
    assert d.rij != [] ==> d.rij[0] in r;
    if d.needQuery { AskedLawful(d, SendQueries(targets, best), targets, best, r); }
    if Active(d) {
      AskedLawful(d, SendQueryOne(targets, best), targets, best, r);
    }
  }

  /** Every step obeys every law. */
  lemma StepLawful(d: Dest, step: Step)
    requires Inv(d) && Enabled(d, step)
    ensures Lawful(d, step, Next(d, step))
  {
    match step
    case Receive(msg) =>
      if d.state == Passive { PassiveLawful(d, msg); }
      else if msg.kind == Reply { ReplyLawful(d, msg); }
      else { ActiveLawful(d, msg); }
    case Lost(msg, hasRoute) =>
      LostLawful(d, msg, hasRoute);
    case SendQueries(targets, best) => QueryLawful(d, targets, best);
    case SendQueryOne(targets, best) => QueryLawful(d, targets, best);
    case SendUpdates =>
  }
}
