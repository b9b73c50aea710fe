/**
 The destination record updated in place: reply-status list, event functions,
 dispatch through the table, neighbor loss and the packetizer's passes. The
 entry points keep the invariant of `DualSafety` and promise what their callers
 rely on; each takes exactly the step of module `Dual` it implements.
 */
module DualMachine {
  import opened Common
  import opened Dual
  import opened DualSafety
  import opened DualLaws

  /** A list node's position of the first status of a neighbor. */
  method ReplyStatusLookup(rij: seq<Nbr>, n: Nbr) returns (at: nat)
    ensures at <= |rij|
    ensures (at < |rij|) == (n in rij)
    ensures at < |rij| ==> rij[at] == n && n !in rij[..at]
    ensures Without(rij, n) == if at < |rij| then rij[..at] + rij[at + 1..] else rij
  {
    at := 0;
    while at < |rij| && rij[at] != n
      invariant at <= |rij|
      invariant forall k :: 0 <= k < at ==> rij[k] != n
    {
      at := at + 1;
    }
    WithoutAt(rij, n, at);
  }

  lemma {:induction false} WithoutAt(rij: seq<Nbr>, n: Nbr, at: nat)
    requires at <= |rij| && (at < |rij| ==> rij[at] == n) && forall k :: 0 <= k < at ==> rij[k] != n
    ensures Without(rij, n) == if at < |rij| then rij[..at] + rij[at + 1..] else rij
    decreases |rij|
  {
    if at > 0 {
      var rest := rij[1..];
      WithoutAt(rest, n, at - 1);
      assert rij == [rij[0]] + rest;
      if at < |rij| {
        assert rij[..at] + rij[at + 1..] == [rij[0]] + (rest[..at - 1] + rest[at..]);
      }
    }
  }

  class Destination {
    var state: State
    var fd: nat
    var distance: nat
    var rdistance: nat
    var metric: Metric
    var rij: seq<Nbr>
    var origin: Option<Nbr>
    var needQuery: bool
    var needUpdate: bool
    var changes: nat
    var ledger: Ledger

    function View(): Dest
      reads this
    {
      Dest(state, fd, distance, rdistance, metric, rij, origin, needQuery, needUpdate, changes, ledger)
    }

    /** Not stranded, distances and origin in order, QUERYs accounted for. */
    predicate Valid()
      reads this
    {
      Inv(View())
    }

    method ReplyStatusAdd(n: Nbr)
      modifies this`rij
      ensures rij == With(old(rij), n)
    {
      var at := ReplyStatusLookup(rij, n);
      if at == |rij| {
        rij := rij + [n];
      }
    }

    method ReplyStatusRemove(n: Nbr) returns (pending: bool)
      modifies this`rij
      ensures rij == Without(old(rij), n)
      ensures pending == (rij != [])
    {
      var at := ReplyStatusLookup(rij, n);
      if at < |rij| {
        rij := rij[..at] + rij[at + 1..];
      }
      pending := rij != [];
    }

    method ReplySend()
      modifies this`ledger
      ensures View() == Replied(old(View()))
    {
      ledger := ledger.(replied := ledger.replied + 1);
    }

    method DischargeOrigin()
      modifies this`ledger, this`origin
      ensures View() == Discharge(old(View())).(origin := None)
    {
      if origin.Some? {
        ledger := ledger.(replied := ledger.replied + 1, deferred := ledger.deferred + [origin.value]);
      }
      origin := None;
    }

    method ChangeAdd(query: bool, update: bool)
      modifies this`needQuery, this`needUpdate, this`changes
      ensures View() == Queued(old(View()).(needQuery := old(needQuery) || query,
                                            needUpdate := old(needUpdate) || update))
    {
      needQuery := needQuery || query;
      needUpdate := needUpdate || update;
      changes := changes + 1;
    }

    method BackToPassive(owed: bool)
      modifies this
      ensures View() == Returned(old(View()), owed)
    {
      if owed {
        DischargeOrigin();
      }
      origin := None;
      rij := [];
      state := Passive;
      ChangeAdd(false, true);
    }

    method Recompute(best: Option<Route>)
      modifies this
      ensures View() == Recomputed(old(View()), best)
    {
      if best.Some? {
        fd, distance, rdistance := best.value.distance, best.value.distance, best.value.distance;
        metric := best.value.total;
      } else {
        fd, distance, rdistance := MAX_METRIC, MAX_METRIC, MAX_METRIC;
        metric := UNREACHABLE_METRIC;
      }
      ledger := ledger.(lrRuns := ledger.lrRuns + 1,
                        lrEarly := if rij == [] then ledger.lrEarly else ledger.lrEarly + 1);
    }

    method LastReply(best: Option<Route>)
      modifies this
      ensures View() == EventLr(old(View()), best)
      ensures state == Passive && rij == [] && origin == None && needUpdate
      ensures Installed(View(), best)
    {
      Recompute(best);
      BackToPassive(state == Active3 || state == Active2);
    }

    method StartDiffusing(msg: Message)
      modifies this
      ensures View() == Diffuse(old(View()).(rij := []), msg)
    {
      rij := [];
      if msg.nbrCount > 0 {
        ChangeAdd(true, false);
      } else {
        LastReply(msg.best);
      }
    }

    method KeepState(msg: Message)
      modifies this
      ensures View() == EventKeep(old(View()), msg)
    {
      if state == Passive {
        var route := if msg.selected.Some? then msg.selected else msg.best;
        if route.Some? && metric != route.value.total {
          distance := route.value.distance;
          rdistance := route.value.distance;
          if route.value.distance < fd {
            fd := route.value.distance;
          }
          metric := route.value.total;
          ChangeAdd(false, true);
        }
      }
      if msg.kind == Query && (state == Passive || !msg.successor) {
        ReplySend();
      }
    }

    method Adopt(route: Route)
      modifies this
      ensures View() == Adopted(old(View()), route)
    {
      distance, rdistance := route.distance, route.distance;
      metric := route.total;
      fd := if fd > distance then distance else fd;
    }

    method LastReplyFeasible(route: Route)
      modifies this
      ensures View() == EventLrFcs(old(View()), route)
    {
      Adopt(route);
      BackToPassive(state == Active2);
    }

    method LastReplyInfeasible(msg: Message)
      modifies this
      ensures View() == EventLrFcn(old(View()), msg)
    {
      state := if state == Active0 then Active1 else Active3;
      StartDiffusing(msg);
    }

    method QueryWhileActive(msg: Message)
      modifies this
      ensures View() == EventQact(old(View()), msg)
    {
      if origin.Some? {
        ledger := ledger.(superseded := ledger.superseded + 1);
      }
      state := Active2;
      origin := Some(msg.from);
    }

    /** `eigrp_fsm_event_select`: a REPLY leaves the reply set, and the event is
        named by what changed. */
    method EventSelect(msg: Message, change: Change) returns (event: Event)
      modifies this`rij
      ensures (View(), event) == Select(old(View()), msg, change)
      ensures state == Passive ==>
                (event == (if msg.kind == Query then QFcn else NqFcn) <==>
                 change != Same && msg.selected.None? && fd != MAX_METRIC)
      ensures state != Passive && msg.kind == Reply ==>
                rij == Without(old(rij), msg.from) && (event == Keep <==> rij != [])
      ensures event == Qact <==> state != Passive && msg.kind == Query && msg.successor
    {
      if state == Passive {
        if change == Same || (msg.selected.None? && fd == MAX_METRIC) || msg.selected.Some? {
          return Keep;
        }
        return if msg.kind == Query then QFcn else NqFcn;
      }
      if msg.kind == Query && msg.successor {
        return Qact;
      }
      if msg.kind == Reply {
        var pending := ReplyStatusRemove(msg.from);
        if pending {
          return Keep;
        }
        if state == Active1 || state == Active3 {
          return Lr;
        }
        return if msg.selected.Some? then LrFcs else LrFcn;
      }
      if (state == Active1 || state == Active3) && msg.kind == Update
         && change == Increase && msg.successor {
        return Dinc;
      }
      return Keep;
    }

    method Run(event: Event, msg: Message)
      modifies this
      ensures View() == Perform(old(View()), event, msg)
      decreases state == Active1 || state == Active3
    {
      match event
      case NqFcn =>
        state := Active1;
        StartDiffusing(msg);
      case QFcn =>
        state := Active3;
        origin := Some(msg.from);
        StartDiffusing(msg);
      case Lr => LastReply(msg.best);
      case LrFcs =>
        if msg.selected.Some? {
          LastReplyFeasible(msg.selected.value);
        }
      case LrFcn => LastReplyInfeasible(msg);
      case Qact => QueryWhileActive(msg);
      case Keep => KeepState(msg);
      case Dinc =>
        var was := state;
        state := if state == Active1 then Active0 else Active2;
        if rij == [] && (was == Active1 || was == Active3) {
          var again := EventSelect(msg, msg.again);
          Run(Table(state, again), msg);
        }
    }

    /** `eigrp_fsm_event`: afterwards the destination is PASSIVE, or waits for
        somebody or is about to ask; while it stays ACTIVE its distances are
        frozen; its feasible distance rises only with an empty reply set. */
    method Dispatch(msg: Message)
      requires Valid() && (state == Passive ==> msg.kind != Reply)
      modifies this
      ensures Valid() && View() == FsmEvent(old(View()), msg)
      ensures state != Passive ==> (rij != [] || needQuery) && SameDistances(old(View()), View())
      ensures fd > old(fd) ==> state == Passive && rij == [] && ledger.lrRuns == old(ledger).lrRuns + 1
    {
      StepKeeps(View(), Receive(msg));
      if Active(FsmEvent(View(), msg)) {
        EventFrozen(View(), msg);
      }
      FdRisesOnlyByLr(View(), Receive(msg));
      FdRisesAtRest(View(), msg);
      HandleEvent(msg);
    }

    method HandleEvent(msg: Message)
      modifies this
      ensures View() == FsmEvent(old(View()), msg)
    {
      if msg.kind == Query {
        ledger := ledger.(received := ledger.received + 1);
      }
      var event := EventSelect(msg, msg.change);
      Run(Table(state, event), msg);
    }

    method ReplyLost(msg: Message)
      modifies this
      ensures View() == LostReply(old(View()), msg)
    {
      var at := ReplyStatusLookup(rij, msg.from);
      if state == Passive || at == |rij| {
        return;
      }
      var pending := ReplyStatusRemove(msg.from);
      if !pending {
        LastReplyLost(msg);
      }
    }

    method LastReplyLost(msg: Message)
      modifies this
      ensures View() == LastLost(old(View()), msg)
    {
      if state == Active0 || state == Active2 {
        if msg.selected.Some? {
          LastReplyFeasible(msg.selected.value);
        } else {
          LastReplyInfeasible(msg);
        }
      } else {
        LastReply(msg.best);
      }
    }

    method AbandonOrigin(n: Nbr)
      modifies this`origin, this`ledger
      ensures View() == Abandon(old(View()), n)
    {
      if origin == Some(n) {
        origin := None;
        ledger := ledger.(abandoned := ledger.abandoned + 1);
      }
    }

    /** `eigrp_topology_neighbor_down` for one destination: the neighbor is no
        longer waited for and no longer owed a REPLY, and the destination is not
        stranded. */
    method PeerDown(msg: Message, hasRoute: bool)
      requires Valid()
      modifies this
      ensures Valid() && View() == NeighborDown(old(View()), msg, hasRoute)
      ensures origin != Some(msg.from) && (old(state) != Passive ==> msg.from !in rij)
      ensures state != Passive ==> rij != [] || needQuery
    {
      StepKeeps(View(), Lost(msg, hasRoute));
      LostIsForgotten(View(), msg, hasRoute);
      AbandonOrigin(msg.from);
      if hasRoute {
        HandleEvent(msg.(kind := if state == Passive then Update else Reply));
      } else {
        ReplyLost(msg);
      }
    }

    method QueriesWereSent(best: Option<Route>)
      modifies this
      ensures View() == QuerySent(old(View()), best)
    {
      if state != Passive && rij == [] {
        LastReply(best);
      }
    }

    /** Packetizing the QUERY: one reply is awaited from each target. */
    method AwaitReplies(targets: seq<Nbr>)
      modifies this`rij
      ensures rij == WithAll(old(rij), targets)
    {
      var i := 0;
      while i < |targets|
        invariant i <= |targets|
        invariant WithAll(rij, targets[i..]) == WithAll(old(rij), targets)
      {
        assert targets[i..][0] == targets[i] && targets[i..][1..] == targets[i + 1..];
        ReplyStatusAdd(targets[i]);
        i := i + 1;
      }
    }

    /** The query pass of `eigrp_packetizer_changes_send`: afterwards the
        destination is PASSIVE or waits for somebody, and stays ACTIVE exactly
        when somebody was or is asked. */
    method ChangesSendQueries(targets: seq<Nbr>, best: Option<Route>)
      requires Valid()
      modifies this
      ensures Valid() && View() == QueryPass(old(View()), targets, best)
      ensures !needQuery && (state == Passive || rij != [])
      ensures old(state != Passive && needQuery) ==> (state != Passive <==> old(rij) != [] || targets != [])
    {
      StepKeeps(View(), SendQueries(targets, best));
      QueryPassSettles(View(), targets, best);
      if needQuery {
        AwaitReplies(targets);
        QueriesWereSent(best);
        needQuery := false;
      }
      if !needUpdate {
        changes := 0;
      }
    }

    /** A QUERY for this destination alone. */
    method QuerySend(targets: seq<Nbr>, best: Option<Route>)
      requires Valid() && state != Passive
      modifies this
      ensures Valid() && View() == QueryOne(old(View()), targets, best)
      ensures state == Passive || rij != []
    {
      StepKeeps(View(), SendQueryOne(targets, best));
      AwaitReplies(targets);
      QueriesWereSent(best);
    }

    /** The update pass: what is left on the packetizer's list still has to query. */
    method ChangesSendUpdates()
      requires Valid()
      modifies this
      ensures Valid() && View() == UpdatePass(old(View()))
      ensures !needUpdate && (changes > 0 ==> needQuery)
    {
      StepKeeps(View(), SendUpdates);
      needUpdate := false;
      if !needQuery {
        changes := 0;
      }
    }

    /** The in-place code takes exactly the steps of the model. */
    method Take(step: Step)
      requires Valid() && Enabled(View(), step)
      modifies this
      ensures Valid() && View() == Next(old(View()), step)
      ensures Lawful(old(View()), step, View())
    {
      StepLawful(View(), step);
      match step
      case Receive(msg) => Dispatch(msg);
      case Lost(msg, hasRoute) => PeerDown(msg, hasRoute);
      case SendQueries(targets, best) => ChangesSendQueries(targets, best);
      case SendQueryOne(targets, best) => QuerySend(targets, best);
      case SendUpdates => ChangesSendUpdates();
    }
  }

  /** FD rises only into PASSIVE with nobody left to wait for. */
  lemma FdRisesAtRest(d: Dest, msg: Message)
    requires Inv(d)
    ensures FsmEvent(d, msg).fd > d.fd ==> FsmEvent(d, msg).state == Passive && FsmEvent(d, msg).rij == []
  {
    EventIs(d, msg);
  }

  /** A lost neighbor is no longer owed a REPLY, and an ACTIVE destination no
      longer waits for one from it. */
  lemma LostIsForgotten(d: Dest, msg: Message, hasRoute: bool)
    requires Inv(d)
    ensures NeighborDown(d, msg, hasRoute).origin != Some(msg.from)
    ensures Active(d) ==> msg.from !in NeighborDown(d, msg, hasRoute).rij
  {
    WithoutRemoves(d.rij, msg.from);
    if hasRoute {
      ReplyForgets(Abandon(d, msg.from), msg.(kind := if d.state == Passive then Update else Reply));
    } else {
      LossForgets(Abandon(d, msg.from), msg);
    }
  }

  lemma LossForgets(d: Dest, msg: Message)
    requires NoDuplicates(d.rij) && d.origin != Some(msg.from)
    ensures LostReply(d, msg).origin != Some(msg.from)
    ensures Active(d) ==> msg.from !in LostReply(d, msg).rij
  {
    WithoutRemoves(d.rij, msg.from);
  }

  lemma ReplyForgets(d: Dest, msg: Message)
    requires NoDuplicates(d.rij) && OriginOk(d) && msg.kind != Query && d.origin != Some(msg.from)
    ensures FsmEvent(d, msg).origin != Some(msg.from)
    ensures Active(d) && msg.kind == Reply ==> msg.from !in FsmEvent(d, msg).rij
  {
    WithoutRemoves(d.rij, msg.from);
    EventIs(d, msg);
  }
}
