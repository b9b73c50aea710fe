/**
 Suspension and generation fencing. The process thread authenticates a packet
 against a neighbor and stamps it with the neighbor's generation; the address
 family dispatches it later. Between the two the neighbor may be suspended,
 released, torn down or created anew.
 */
module Fence {
  type Addr = nat

  const GENERATIONS: nat := 0xffff_ffff_ffff_ffff   // nonzero 64-bit values

  datatype State = Down | Pending | Up

  datatype Limit = NoLimit | Suspended | Locked

  datatype AfState = Open | AfSuspended | AfLocked

  /** `stamp` counts the generations issued when this neighbor got its own. */
  datatype Nbr = Nbr(addr: Addr, state: State, limit: Limit, cleanup: bool, afSuspended: bool, stamp: nat)

  /** A queued packet. `generation` is 0 for a discovery Hello. `stamp` and
      `stale` are bookkeeping of the model: the neighbor's stamp at admission,
      and whether that neighbor was suspended, released or deleted since. */
  datatype Packet = Packet(addr: Addr, generation: nat, stamp: nat, stale: bool)

  datatype Family = Family(nbrs: seq<Nbr>, afState: AfState, issued: nat, queue: seq<Packet>)

  /** The 64-bit counter that skips zero, after `k` increments. */
  function Generation(k: nat): (g: nat)
    requires k > 0
    ensures 0 < g <= GENERATIONS
  {
    (k - 1) % GENERATIONS + 1
  }

  /** `eigrp_nbr_is_eligible` */
  predicate Eligible(n: Nbr, af: AfState) {
    n.limit == NoLimit && !n.cleanup && !n.afSuspended && af == Open
  }

  /** `eigrp_nbr_lookup`: position of the address; the length when absent. */
  function Find(nbrs: seq<Nbr>, a: Addr): (i: nat)
    ensures i <= |nbrs|
    ensures i < |nbrs| ==> nbrs[i].addr == a
  {
    if nbrs == [] then 0 else if nbrs[0].addr == a then 0 else 1 + Find(nbrs[1..], a)
  }

  lemma {:induction false} FindIsFirst(nbrs: seq<Nbr>, a: Addr)
    ensures forall k | 0 <= k < Find(nbrs, a) :: nbrs[k].addr != a
  {
    if nbrs != [] && nbrs[0].addr != a {
      FindIsFirst(nbrs[1..], a);
      forall k | 0 <= k < Find(nbrs, a) ensures nbrs[k].addr != a {
        assert k > 0 ==> nbrs[k] == nbrs[1..][k - 1];
      }
    }
  }

  predicate Present(s: Family, a: Addr) { Find(s.nbrs, a) < |s.nbrs| }

  /** Mark the queued packets of these neighbors. */
  function Marked(queue: seq<Packet>, hit: set<Addr>): (r: seq<Packet>)
    ensures |r| == |queue|
    ensures forall i | 0 <= i < |queue| :: r[i] == queue[i].(stale := queue[i].stale || queue[i].addr in hit)
  {
    seq(|queue|, i requires 0 <= i < |queue| => queue[i].(stale := queue[i].stale || queue[i].addr in hit))
  }

  function WithNbr(s: Family, i: nat, n: Nbr): Family
    requires i < |s.nbrs|
  {
    s.(nbrs := s.nbrs[i := n])
  }

  /** Issue a new generation to the neighbor at `i`. */
  function Restamped(s: Family, i: nat, n: Nbr): Family
    requires i < |s.nbrs|
  {
    s.(nbrs := s.nbrs[i := n.(stamp := s.issued + 1)], issued := s.issued + 1,
       queue := Marked(s.queue, {n.addr}))
  }

  /** `eigrp_nbr_limit_state_update`: the first penalty takes the neighbor down. */
  function Penalized(s: Family, i: nat, limit: Limit): Family
    requires i < |s.nbrs|
  {
    var n := s.nbrs[i];
    if limit == NoLimit || (n.limit == Locked && limit == Suspended) then s
    else if n.limit == NoLimit then Restamped(s, i, n.(limit := limit, state := Down, cleanup := false))
    else WithNbr(s, i, n.(limit := limit))
  }

  /** `eigrp_nbr_limit_release` */
  function Released(s: Family, i: nat): Family
    requires i < |s.nbrs|
  {
    if s.nbrs[i].limit == Suspended then Restamped(s, i, s.nbrs[i].(limit := NoLimit)) else s
  }

  /** `eigrp_pfxlimits_nbr_update` for one neighbor. */
  function AfMove(n: Nbr, release: bool, stamp: nat): Nbr {
    if release then n.(afSuspended := false, stamp := stamp)
    else n.(afSuspended := true, stamp := stamp,
            state := if n.limit == NoLimit then Down else n.state,
            cleanup := if n.limit == NoLimit then false else n.cleanup)
  }

  /** ... for all: a neighbor moves when its flag differs. */
  function AfMoved(nbrs: seq<Nbr>, release: bool, issued: nat): (r: seq<Nbr>)
    ensures |r| == |nbrs|
  {
    if nbrs == [] then []
    else if nbrs[0].afSuspended != release then [nbrs[0]] + AfMoved(nbrs[1..], release, issued)
    else [AfMove(nbrs[0], release, issued + 1)] + AfMoved(nbrs[1..], release, issued + 1)
  }

  function AfMoves(nbrs: seq<Nbr>, release: bool): nat {
    if nbrs == [] then 0
    else (if nbrs[0].afSuspended == release then 1 else 0) + AfMoves(nbrs[1..], release)
  }

  function AfHit(nbrs: seq<Nbr>, release: bool): set<Addr> {
    set n | n in nbrs && n.afSuspended == release :: n.addr
  }

  function AfUpdated(s: Family, release: bool): Family {
    s.(nbrs := AfMoved(s.nbrs, release, s.issued), issued := s.issued + AfMoves(s.nbrs, release),
       queue := Marked(s.queue, AfHit(s.nbrs, release)))
  }

  /** `eigrp_nbr_state_update_reason`: a suspended peer only goes DOWN. */
  function Moved(n: Nbr, state: State): Nbr {
    if (n.limit != NoLimit || n.afSuspended) && state != Down then n else n.(state := state)
  }

  /** `eigrp_packet_ingress_authenticate` after the digest check. */
  function Admitted(s: Family, a: Addr, discoveryHello: bool): Family {
    var i := Find(s.nbrs, a);
    if i < |s.nbrs| then
      if !Eligible(s.nbrs[i], s.afState) || s.nbrs[i].stamp == 0 then s
      else s.(queue := s.queue + [Packet(a, Generation(s.nbrs[i].stamp), s.nbrs[i].stamp, false)])
    else if discoveryHello then s.(queue := s.queue + [Packet(a, 0, 0, false)])
    else s
  }

  /** The dispatch gate for a packet authenticated against a neighbor. */
  predicate Accepts(s: Family, p: Packet) {
    var i := Find(s.nbrs, p.addr);
    && i < |s.nbrs|
    && Eligible(s.nbrs[i], s.afState)
    && s.nbrs[i].stamp > 0
    && p.generation != 0
    && p.generation == Generation(s.nbrs[i].stamp)
  }

  /** What the handler of an accepted packet does: a state change, and limits it
      runs into (with the penalty engine's sentence). */
  datatype Handler = Handler(state: State, nbrLimit: Limit, af: AfState)

  /** The handler's part: the neighbor is marked DOWN, the family flagged. */
  function Handled(s: Family, i: nat, h: Handler): Family
    requires i < |s.nbrs|
  {
    var n := Moved(s.nbrs[i], h.state);
    var n' := if h.nbrLimit != NoLimit && Eligible(n, s.afState) then n.(state := Down, cleanup := true) else n;
    WithNbr(s, i, n').(afState := if s.afState == Open then h.af else s.afState)
  }

  /** The cleanup after the handler returned: family first, then neighbor. */
  function CleanedUp(s: Family, i: nat, h: Handler): Family
    requires i < |s.nbrs|
  {
    var s1 := if h.af != Open then AfUpdated(s, false) else s;
    if s1.nbrs[i].cleanup
    then Penalized(s1, i, h.nbrLimit)
    else s1
  }

  function Dispatched(s: Family, h: Handler): Family {
    if s.queue == [] then s
    else
      var p := s.queue[0];
      var s1 := s.(queue := s.queue[1..]);
      if !Accepts(s1, p) then s1
      else
        var i := Find(s.nbrs, p.addr);
        CleanedUp(Handled(s1, i, h), i, h)
  }

  datatype Step =
    | Create(a: Addr)
    | Delete(a: Addr)
    | Admit(a: Addr, discoveryHello: bool)
    | Dispatch(h: Handler)
    | SetState(a: Addr, state: State)
    | RestartTimer(a: Addr)
    | AfViolation(af: AfState)
    | AfRestartTimer
    | AfClear

  function Next(s: Family, step: Step): Family {
    match step
    case Create(a) =>
      if Present(s, a) then s
      else s.(nbrs := s.nbrs + [Nbr(a, Down, NoLimit, false, false, s.issued + 1)], issued := s.issued + 1)
    case Delete(a) =>
      var i := Find(s.nbrs, a);
      if i == |s.nbrs| then s
      else s.(nbrs := s.nbrs[..i] + s.nbrs[i + 1..], queue := Marked(s.queue, {a}))
    case Admit(a, discoveryHello) => Admitted(s, a, discoveryHello)
    case Dispatch(h) => Dispatched(s, h)
    case SetState(a, state) =>
      var i := Find(s.nbrs, a);
      if i == |s.nbrs| then s else WithNbr(s, i, Moved(s.nbrs[i], state))
    case RestartTimer(a) =>
      var i := Find(s.nbrs, a);
      if i == |s.nbrs| then s else Released(s, i)
    case AfViolation(af) =>
      if s.afState != Open || af == Open then s else AfUpdated(s.(afState := af), false)
    case AfRestartTimer =>
      if s.afState != AfSuspended then s else AfUpdated(s.(afState := Open), true)
    case AfClear =>
      if s.afState == Open then s else AfUpdated(s.(afState := Open), true)
  }

  function After(s: Family, steps: seq<Step>): Family
    decreases |steps|
  {
    if steps == [] then s else After(Next(s, steps[0]), steps[1..])
  }

  // ----- the invariant -----

  predicate Distinct(nbrs: seq<Nbr>) {
    forall i, j | 0 <= i < j < |nbrs| :: nbrs[i].addr != nbrs[j].addr
  }

  /** Between steps: penalized or suspended means DOWN, nothing half done. */
  predicate NbrOk(n: Nbr, issued: nat, af: AfState) {
    && 0 < n.stamp <= issued
    && !n.cleanup
    && (n.limit != NoLimit || n.afSuspended ==> n.state == Down)
    && (n.afSuspended ==> af != Open)
  }

  /** A fresh packet's neighbor still has its stamp; a stale one's has a later
      stamp, if it is there at all. */
  predicate PacketOk(p: Packet, nbrs: seq<Nbr>, issued: nat) {
    p.generation != 0 ==>
      && 0 < p.stamp <= issued
      && p.generation == Generation(p.stamp)
      && (!p.stale ==> exists i :: 0 <= i < |nbrs| && nbrs[i].addr == p.addr && nbrs[i].stamp == p.stamp)
      && (p.stale ==> forall i | 0 <= i < |nbrs| && nbrs[i].addr == p.addr :: nbrs[i].stamp > p.stamp)
  }

  predicate Inv(s: Family) {
    && Distinct(s.nbrs)
    && (forall i | 0 <= i < |s.nbrs| :: NbrOk(s.nbrs[i], s.issued, s.afState))
    && (forall k | 0 <= k < |s.queue| :: PacketOk(s.queue[k], s.nbrs, s.issued))
  }

  // ----- single updates -----

  /** Anything that keeps the addresses and stamps keeps the packets. */
  lemma PacketsKeep(s: Family, t: Family)
    requires Inv(s)
    requires t.queue == s.queue && t.issued >= s.issued && |t.nbrs| == |s.nbrs|
    requires forall i | 0 <= i < |s.nbrs| :: t.nbrs[i].addr == s.nbrs[i].addr && t.nbrs[i].stamp == s.nbrs[i].stamp
    ensures Distinct(t.nbrs)
    ensures forall k | 0 <= k < |t.queue| :: PacketOk(t.queue[k], t.nbrs, t.issued)
  {
    forall k | 0 <= k < |t.queue| ensures PacketOk(t.queue[k], t.nbrs, t.issued) {
      var p := t.queue[k];
      assert PacketOk(p, s.nbrs, s.issued);
      if p.generation != 0 && !p.stale {
        var i :| 0 <= i < |s.nbrs| && s.nbrs[i].addr == p.addr && s.nbrs[i].stamp == p.stamp;
        assert t.nbrs[i].addr == p.addr;
      }
    }
  }

  /** Newly issued stamps make the packets of their neighbors stale. */
  lemma PacketsFenced(s: Family, t: Family, hit: set<Addr>)
    requires Inv(s)
    requires t.queue == Marked(s.queue, hit) && t.issued >= s.issued && |t.nbrs| == |s.nbrs|
    requires forall i | 0 <= i < |s.nbrs| :: t.nbrs[i].addr == s.nbrs[i].addr
    requires forall i | 0 <= i < |s.nbrs| ::
               if s.nbrs[i].addr in hit then t.nbrs[i].stamp > s.issued else t.nbrs[i].stamp == s.nbrs[i].stamp
    ensures Distinct(t.nbrs)
    ensures forall k | 0 <= k < |t.queue| :: PacketOk(t.queue[k], t.nbrs, t.issued)
  {
    forall k | 0 <= k < |t.queue| ensures PacketOk(t.queue[k], t.nbrs, t.issued) {
      var p := s.queue[k];
      assert PacketOk(p, s.nbrs, s.issued);
      if p.generation != 0 && !p.stale {
        var i :| 0 <= i < |s.nbrs| && s.nbrs[i].addr == p.addr && s.nbrs[i].stamp == p.stamp;
        assert t.nbrs[i].addr == p.addr;
      }
    }
  }

  lemma RestampKeeps(s: Family, i: nat, n: Nbr)
    requires Inv(s) && i < |s.nbrs| && n.addr == s.nbrs[i].addr
    requires !n.cleanup && (n.limit != NoLimit || n.afSuspended ==> n.state == Down)
    requires n.afSuspended ==> s.afState != Open
    ensures Inv(Restamped(s, i, n))
  {
    var t := Restamped(s, i, n);
    PacketsFenced(s, t, {n.addr});
  }

  /** Position by position, what the loop over the neighbors does. */
  lemma {:induction false} AfMovedAt(nbrs: seq<Nbr>, release: bool, issued: nat, i: nat)
    requires i < |nbrs|
    ensures var r := AfMoved(nbrs, release, issued)[i];
            if nbrs[i].afSuspended != release then r == nbrs[i]
            else issued < r.stamp <= issued + AfMoves(nbrs, release) && r == AfMove(nbrs[i], release, r.stamp)
    decreases |nbrs|
  {
    if i > 0 {
      AfMovedAt(nbrs[1..], release, if nbrs[0].afSuspended == release then issued + 1 else issued, i - 1);
    }
  }

  lemma AfHitAt(nbrs: seq<Nbr>, release: bool, i: nat)
    requires Distinct(nbrs) && i < |nbrs|
    ensures nbrs[i].addr in AfHit(nbrs, release) <==> nbrs[i].afSuspended == release
  {
    if nbrs[i].addr in AfHit(nbrs, release) {
      var n :| n in nbrs && n.afSuspended == release && n.addr == nbrs[i].addr;
      var j :| 0 <= j < |nbrs| && nbrs[j] == n;
      assert j == i;
    } else {
      assert nbrs[i] in nbrs;
    }
  }

  /** Between steps except for the cleanup flag of neighbors without a penalty. */
  predicate NbrNearlyOk(n: Nbr, issued: nat) {
    && 0 < n.stamp <= issued
    && (n.cleanup ==> n.limit == NoLimit)
    && (n.limit != NoLimit || n.afSuspended ==> n.state == Down)
  }

  lemma AfUpdateKeeps(s: Family, t: Family, release: bool)
    requires Inv(t) && s.queue == t.queue && s.issued == t.issued && |s.nbrs| == |t.nbrs|
    requires forall i | 0 <= i < |s.nbrs| :: s.nbrs[i].addr == t.nbrs[i].addr && s.nbrs[i].stamp == t.nbrs[i].stamp
    requires forall i | 0 <= i < |s.nbrs| :: NbrNearlyOk(s.nbrs[i], s.issued)
    requires forall i | 0 <= i < |s.nbrs| :: s.nbrs[i].cleanup ==> !release && !s.nbrs[i].afSuspended
    requires s.afState == Open <==> release
    ensures Inv(AfUpdated(s, release))
  {
    var u := AfUpdated(s, release);
    forall i | 0 <= i < |s.nbrs|
      ensures NbrOk(u.nbrs[i], u.issued, u.afState)
      ensures u.nbrs[i].addr == t.nbrs[i].addr
      ensures if t.nbrs[i].addr in AfHit(s.nbrs, release) then u.nbrs[i].stamp > t.issued
              else u.nbrs[i].stamp == t.nbrs[i].stamp
    {
      AfMovedAt(s.nbrs, release, s.issued, i);
      AfHitAt(s.nbrs, release, i);
    }
    PacketsFenced(t, u, AfHit(s.nbrs, release));
  }

  lemma PenaltyKeeps(s: Family, t: Family, i: nat, limit: Limit)
    requires Inv(t) && i < |s.nbrs| == |t.nbrs|
    requires s == WithNbr(t, i, t.nbrs[i].(state := s.nbrs[i].state, cleanup := s.nbrs[i].cleanup))
    requires s.nbrs[i].cleanup && t.nbrs[i].limit == NoLimit && limit != NoLimit
    requires t.nbrs[i].afSuspended ==> s.nbrs[i].state == Down
    ensures Inv(Penalized(s, i, limit))
  {
    var n := t.nbrs[i].(limit := limit, state := Down, cleanup := false);
    RestampKeeps(t, i, n);
    assert Penalized(s, i, limit).nbrs == Restamped(t, i, n).nbrs;
  }

  // ----- dispatch -----

  lemma PopKeeps(s: Family)
    requires Inv(s) && s.queue != []
    ensures Inv(s.(queue := s.queue[1..]))
  {
    var t := s.(queue := s.queue[1..]);
    forall k | 0 <= k < |t.queue| ensures PacketOk(t.queue[k], t.nbrs, t.issued) {
      assert t.queue[k] == s.queue[k + 1];
    }
  }

  lemma DispatchKeeps(s: Family, i: nat, h: Handler)
    requires Inv(s) && i < |s.nbrs| && Eligible(s.nbrs[i], s.afState)
    ensures Inv(CleanedUp(Handled(s, i, h), i, h))
  {
    var s1 := Handled(s, i, h);
    if h.af != Open {
      AfUpdateKeeps(s1, s, false);
      var s2 := AfUpdated(s1, false);
      assert NbrOk(s2.nbrs[i], s2.issued, s2.afState);
    } else if s1.nbrs[i].cleanup {
      PenaltyKeeps(s1, s, i, h.nbrLimit);
    } else {
      PacketsKeep(s, s1);
    }
  }

  // ----- main results -----

  lemma StepKeeps(s: Family, step: Step)
    requires Inv(s)
    ensures Inv(Next(s, step))
  {
    var t := Next(s, step);
    match step
    case Create(a) => if !Present(s, a) { CreateKeeps(s, a); }
    case Delete(a) => if Present(s, a) { DeleteKeeps(s, a); }
    case Admit(a, hello) => AdmitKeeps(s, a, hello);
    case Dispatch(h) =>
      if s.queue != [] {
        PopKeeps(s);
        var s1 := s.(queue := s.queue[1..]);
        if Accepts(s1, s.queue[0]) {
          DispatchKeeps(s1, Find(s.nbrs, s.queue[0].addr), h);
        }
      }
    case SetState(a, state) => PacketsKeep(s, t);
    case RestartTimer(a) =>
      var i := Find(s.nbrs, a);
      if i < |s.nbrs| { RestampKeeps(s, i, s.nbrs[i].(limit := NoLimit)); }
    case AfViolation(af) =>
      if t != s { AfUpdateKeeps(s.(afState := af), s, false); }
    case AfRestartTimer =>
      if t != s { AfUpdateKeeps(s.(afState := Open), s, true); }
    case AfClear =>
      if t != s { AfUpdateKeeps(s.(afState := Open), s, true); }
  }

  lemma CreateKeeps(s: Family, a: Addr)
    requires Inv(s) && !Present(s, a)
    ensures Inv(Next(s, Create(a)))
  {
    FindIsFirst(s.nbrs, a);
    var t := Next(s, Create(a));
    forall k | 0 <= k < |t.queue| ensures PacketOk(t.queue[k], t.nbrs, t.issued) {
      var p := t.queue[k];
      assert PacketOk(p, s.nbrs, s.issued);
      if p.generation != 0 && !p.stale {
        var i :| 0 <= i < |s.nbrs| && s.nbrs[i].addr == p.addr && s.nbrs[i].stamp == p.stamp;
        assert t.nbrs[i] == s.nbrs[i];
      }
    }
  }

  lemma DeleteKeeps(s: Family, a: Addr)
    requires Inv(s) && Present(s, a)
    ensures Inv(Next(s, Delete(a)))
  {
    var t := Next(s, Delete(a));
    var at := Find(s.nbrs, a);
    forall k | 0 <= k < |t.queue| ensures PacketOk(t.queue[k], t.nbrs, t.issued) {
      var p := s.queue[k];
      assert PacketOk(p, s.nbrs, s.issued);
      if p.generation != 0 && !p.stale && p.addr != a {
        var i :| 0 <= i < |s.nbrs| && s.nbrs[i].addr == p.addr && s.nbrs[i].stamp == p.stamp;
        assert t.nbrs[if i < at then i else i - 1] == s.nbrs[i];
      }
    }
  }

  lemma AdmitKeeps(s: Family, a: Addr, hello: bool)
    requires Inv(s)
    ensures Inv(Admitted(s, a, hello))
  {
    var i := Find(s.nbrs, a);
    if i < |s.nbrs| {
      assert s.nbrs[i].addr == a;
    }
  }

  lemma {:induction false} RunKeeps(s: Family, steps: seq<Step>)
    requires Inv(s)
    ensures Inv(After(s, steps))
    decreases |steps|
  {
    if steps != [] {
      StepKeeps(s, steps[0]);
      RunKeeps(Next(s, steps[0]), steps[1..]);
    }
  }

  // ----- the fence -----

  lemma GenerationsDiffer(j: nat, k: nat)
    requires 0 < j < k && k - j < GENERATIONS
    ensures Generation(j) != Generation(k)
  {
    var m := GENERATIONS;
    assert k - j == m * ((k - 1) / m - (j - 1) / m) + ((k - 1) % m - (j - 1) % m);
  }

  lemma FindIs(nbrs: seq<Nbr>, i: nat)
    requires Distinct(nbrs) && i < |nbrs|
    ensures Find(nbrs, nbrs[i].addr) == i
  {
    FindIsFirst(nbrs, nbrs[i].addr);
  }

  /** While fewer than 2^64 - 1 generations were issued since its admission, a
      packet authenticated against a neighbor passes the gate exactly when that
      neighbor was not suspended, released or deleted since and is eligible. */
  lemma GateIsExact(s: Family, k: nat)
    requires Inv(s) && k < |s.queue| && s.queue[k].generation != 0
    requires s.issued - s.queue[k].stamp < GENERATIONS
    ensures var p := s.queue[k];
            Accepts(s, p) <==>
            !p.stale && Present(s, p.addr) && Eligible(s.nbrs[Find(s.nbrs, p.addr)], s.afState)
  {
    var p := s.queue[k];
    assert PacketOk(p, s.nbrs, s.issued);
    var i := Find(s.nbrs, p.addr);
    if i < |s.nbrs| {
      assert NbrOk(s.nbrs[i], s.issued, s.afState);
      if p.stale {
        GenerationsDiffer(p.stamp, s.nbrs[i].stamp);
      } else {
        var j :| 0 <= j < |s.nbrs| && s.nbrs[j].addr == p.addr && s.nbrs[j].stamp == p.stamp;
        FindIs(s.nbrs, j);
      }
    }
  }

  /** The neighbor was there and is gone, or its penalty or its family
      suspension began or ended. */
  predicate Touched(s: Family, t: Family, a: Addr) {
    var i, j := Find(s.nbrs, a), Find(t.nbrs, a);
    && i < |s.nbrs|
    && (j == |t.nbrs|
        || (s.nbrs[i].limit == NoLimit) != (t.nbrs[j].limit == NoLimit)
        || s.nbrs[i].afSuspended != t.nbrs[j].afSuspended)
  }

  lemma {:induction false} FindSame(nbrs: seq<Nbr>, moved: seq<Nbr>, a: Addr)
    requires |nbrs| == |moved|
    requires forall i | 0 <= i < |nbrs| :: nbrs[i].addr == moved[i].addr
    ensures Find(nbrs, a) == Find(moved, a)
    decreases |nbrs|
  {
    if nbrs != [] {
      FindSame(nbrs[1..], moved[1..], a);
    }
  }

  lemma {:induction false} FindAppended(nbrs: seq<Nbr>, n: Nbr, a: Addr)
    requires Find(nbrs, a) < |nbrs|
    ensures Find(nbrs + [n], a) == Find(nbrs, a)
    decreases |nbrs|
  {
    if nbrs[0].addr != a {
      assert (nbrs + [n])[1..] == nbrs[1..] + [n];
      FindAppended(nbrs[1..], n, a);
    }
  }

  lemma FindDeleted(nbrs: seq<Nbr>, at: nat, a: Addr)
    requires Distinct(nbrs) && at < |nbrs|
    ensures var rest := nbrs[..at] + nbrs[at + 1..];
            var i, j := Find(nbrs, a), Find(rest, a);
            (i == at ==> j == |rest|) && (i < |nbrs| && i != at ==> j < |rest| && rest[j] == nbrs[i])
  {
    var rest := nbrs[..at] + nbrs[at + 1..];
    var i, j := Find(nbrs, a), Find(rest, a);
    assert j < |rest| ==> rest[j] == nbrs[if j < at then j else j + 1];
    assert Distinct(rest);
    if i < |nbrs| && i != at {
      var k := if i < at then i else i - 1;
      assert rest[k] == nbrs[i];
      FindIs(rest, k);
    }
  }

  /** What the family loop does to the flags of the neighbor it finds. */
  lemma AfTouches(s: Family, release: bool, a: Addr)
    requires Distinct(s.nbrs) && Find(s.nbrs, a) < |s.nbrs|
    ensures var i := Find(s.nbrs, a);
            var u := AfUpdated(s, release);
            && Find(u.nbrs, a) == i
            && u.nbrs[i].limit == s.nbrs[i].limit && u.nbrs[i].afSuspended == !release
            && (a in AfHit(s.nbrs, release) <==> u.nbrs[i].afSuspended != s.nbrs[i].afSuspended)
  {
    var i := Find(s.nbrs, a);
    var u := AfUpdated(s, release);
    forall k | 0 <= k < |s.nbrs| ensures u.nbrs[k].addr == s.nbrs[k].addr {
      AfMovedAt(s.nbrs, release, s.issued, k);
    }
    FindSame(s.nbrs, u.nbrs, a);
    AfMovedAt(s.nbrs, release, s.issued, i);
    AfHitAt(s.nbrs, release, i);
  }

  lemma DispatchTouches(s: Family, at: nat, h: Handler, k: nat)
    requires Inv(s) && at < |s.nbrs| && Eligible(s.nbrs[at], s.afState)
    requires k < |s.queue| && Present(s, s.queue[k].addr)
    ensures var t := CleanedUp(Handled(s, at, h), at, h);
            && |t.queue| == |s.queue|
            && t.queue[k] == s.queue[k].(stale := s.queue[k].stale || Touched(s, t, s.queue[k].addr))
  {
    var a := s.queue[k].addr;
    var s1 := Handled(s, at, h);
    var t := CleanedUp(s1, at, h);
    FindSame(s.nbrs, s1.nbrs, a);
    if h.af != Open {
      AfTouches(s1, false, a);
      AfMovedAt(s1.nbrs, false, s1.issued, at);
    } else {
      FindSame(s.nbrs, t.nbrs, a);
      FindIs(s.nbrs, at);
    }
  }

  lemma StaleByFamily(s: Family, step: Step, k: nat)
    requires Inv(s) && k < |s.queue| && Present(s, s.queue[k].addr)
    requires step.AfViolation? || step.AfRestartTimer? || step.AfClear?
    ensures var t := Next(s, step);
            && k < |t.queue|
            && t.queue[k] == s.queue[k].(stale := s.queue[k].stale || Touched(s, t, s.queue[k].addr))
  {
    var a := s.queue[k].addr;
    if Next(s, step) != s {
      var af := if step.AfViolation? then step.af else Open;
      AfTouches(s.(afState := af), !step.AfViolation?, a);
    }
  }

  /** Changing one neighbor and marking its packets iff it was touched. */
  lemma StaleByOne(s: Family, t: Family, i: nat, k: nat)
    requires Inv(s) && k < |s.queue| && Present(s, s.queue[k].addr)
    requires i < |s.nbrs| == |t.nbrs| && t.nbrs == s.nbrs[i := t.nbrs[i]] && t.nbrs[i].addr == s.nbrs[i].addr
    requires t.nbrs[i].afSuspended == s.nbrs[i].afSuspended
    requires t.nbrs[i].limit == s.nbrs[i].limit || (t.nbrs[i].limit == NoLimit) != (s.nbrs[i].limit == NoLimit)
    requires t.nbrs[i].limit == s.nbrs[i].limit ==> t.queue == s.queue
    requires (t.nbrs[i].limit == NoLimit) != (s.nbrs[i].limit == NoLimit) ==> t.queue == Marked(s.queue, {s.nbrs[i].addr})
    ensures t.queue[k] == s.queue[k].(stale := s.queue[k].stale || Touched(s, t, s.queue[k].addr))
  {
    FindSame(s.nbrs, t.nbrs, s.queue[k].addr);
    FindIs(s.nbrs, i);
  }

  lemma StaleByNeighbor(s: Family, step: Step, k: nat)
    requires Inv(s) && k < |s.queue| && Present(s, s.queue[k].addr)
    requires step.Admit? || step.SetState? || step.RestartTimer?
    ensures var t := Next(s, step);
            && k < |t.queue|
            && t.queue[k] == s.queue[k].(stale := s.queue[k].stale || Touched(s, t, s.queue[k].addr))
  {
    var t := Next(s, step);
    if step.SetState? || step.RestartTimer? {
      var i := Find(s.nbrs, step.a);
      if i < |s.nbrs| { StaleByOne(s, t, i, k); }
    }
  }

  lemma StaleByMembership(s: Family, step: Step, k: nat)
    requires Inv(s) && k < |s.queue| && Present(s, s.queue[k].addr)
    requires step.Create? || step.Delete?
    ensures var t := Next(s, step);
            && k < |t.queue|
            && t.queue[k] == s.queue[k].(stale := s.queue[k].stale || Touched(s, t, s.queue[k].addr))
  {
    var a := s.queue[k].addr;
    match step
    case Create(x) =>
      if !Present(s, x) { FindAppended(s.nbrs, Next(s, step).nbrs[|s.nbrs|], a); }
    case Delete(x) =>
      if Present(s, x) { FindDeleted(s.nbrs, Find(s.nbrs, x), a); }
  }

  lemma StaleByDispatch(s: Family, h: Handler, k: nat)
    requires Inv(s) && 0 < k < |s.queue| && Present(s, s.queue[k].addr)
    ensures var t := Dispatched(s, h);
            && k - 1 < |t.queue|
            && t.queue[k - 1] == s.queue[k].(stale := s.queue[k].stale || Touched(s, t, s.queue[k].addr))
  {
    PopKeeps(s);
    var s1 := s.(queue := s.queue[1..]);
    if Accepts(s1, s.queue[0]) {
      DispatchTouches(s1, Find(s.nbrs, s.queue[0].addr), h, k - 1);
    }
  }

  /** A queued packet turns stale in the very steps that touch its neighbor. */
  lemma StaleExactly(s: Family, step: Step, k: nat)
    requires Inv(s) && k < |s.queue| && (step.Dispatch? ==> k > 0)
    requires Present(s, s.queue[k].addr)
    ensures var t := Next(s, step);
            var k' := if step.Dispatch? then k - 1 else k;
            && k' < |t.queue|
            && t.queue[k'] == s.queue[k].(stale := s.queue[k].stale || Touched(s, t, s.queue[k].addr))
  {
    match step
    case Create(_) => StaleByMembership(s, step, k);
    case Delete(_) => StaleByMembership(s, step, k);
    case Admit(_, _) => StaleByNeighbor(s, step, k);
    case Dispatch(h) => StaleByDispatch(s, h, k);
    case SetState(_, _) => StaleByNeighbor(s, step, k);
    case RestartTimer(_) => StaleByNeighbor(s, step, k);
    case AfViolation(_) => StaleByFamily(s, step, k);
    case AfRestartTimer => StaleByFamily(s, step, k);
    case AfClear => StaleByFamily(s, step, k);
  }

  lemma DispatchKeepsPacket(s: Family, h: Handler, k: nat)
    requires 0 < k < |s.queue|
    ensures var t := Dispatched(s, h);
            && k - 1 < |t.queue|
            && t.queue[k - 1] == s.queue[k].(stale := t.queue[k - 1].stale)
            && (s.queue[k].stale ==> t.queue[k - 1].stale)
  {
    var s1 := s.(queue := s.queue[1..]);
    if Accepts(s1, s.queue[0]) {
      var i := Find(s.nbrs, s.queue[0].addr);
      var s2 := Handled(s1, i, h);
      var s3 := if h.af != Open then AfUpdated(s2, false) else s2;
      assert s3.queue[k - 1] == s1.queue[k - 1].(stale := s3.queue[k - 1].stale);
    }
  }

  /** A packet stays itself in the queue; only its mark changes, and a marked
      one stays marked. */
  lemma StepKeepsPacket(s: Family, step: Step, k: nat)
    requires Inv(s) && k < |s.queue| && (step.Dispatch? ==> k > 0)
    ensures var t := Next(s, step);
            var k' := if step.Dispatch? then k - 1 else k;
            && k' < |t.queue|
            && t.queue[k'] == s.queue[k].(stale := t.queue[k'].stale)
            && (s.queue[k].stale ==> t.queue[k'].stale)
  {
    if step.Dispatch? {
      DispatchKeepsPacket(s, step.h, k);
    }
  }

  /** What became of a packet, given whether its neighbor was touched. */
  predicate Tracked(p: Packet, q: Packet, touched: bool) {
    q == p.(stale := q.stale) && (p.stale ==> q.stale) && (!p.stale ==> (q.stale <==> touched))
  }

  lemma FreshIsPresent(s: Family, k: nat)
    requires Inv(s) && k < |s.queue| && s.queue[k].generation != 0 && !s.queue[k].stale
    ensures Present(s, s.queue[k].addr)
  {
    var p := s.queue[k];
    assert PacketOk(p, s.nbrs, s.issued);
    var i :| 0 <= i < |s.nbrs| && s.nbrs[i].addr == p.addr && s.nbrs[i].stamp == p.stamp;
    FindIs(s.nbrs, i);
  }

  lemma TrackStep(s: Family, step: Step, k: nat)
    requires Inv(s) && k < |s.queue| && (step.Dispatch? ==> k > 0)
    requires s.queue[k].generation != 0
    ensures var t := Next(s, step);
            var k' := if step.Dispatch? then k - 1 else k;
            k' < |t.queue| && Tracked(s.queue[k], t.queue[k'], Touched(s, t, s.queue[k].addr))
  {
    if s.queue[k].stale {
      StepKeepsPacket(s, step, k);
    } else {
      FreshIsPresent(s, k);
      StaleExactly(s, step, k);
    }
  }

  /** Every packet that stays queued is tracked from one state to the next. */
  ghost predicate Follows(s: Family, t: Family, popped: bool) {
    forall k {:trigger s.queue[k]} | 0 <= k < |s.queue| && (popped ==> k > 0) && s.queue[k].generation != 0 ::
      var k' := if popped then k - 1 else k;
      k' < |t.queue| && Tracked(s.queue[k], t.queue[k'], Touched(s, t, s.queue[k].addr))
  }

  lemma StepFollows(s: Family, step: Step)
    requires Inv(s)
    ensures Follows(s, Next(s, step), step.Dispatch?)
  {
    forall k | 0 <= k < |s.queue| && (step.Dispatch? ==> k > 0) && s.queue[k].generation != 0
      ensures var t := Next(s, step);
              var k' := if step.Dispatch? then k - 1 else k;
              k' < |t.queue| && Tracked(s.queue[k], t.queue[k'], Touched(s, t, s.queue[k].addr))
    {
      TrackStep(s, step, k);
    }
  }

  predicate StepAt(trace: seq<Family>, steps: seq<Step>, i: nat)
    requires i < |steps| && i + 1 < |trace|
  {
    trace[i + 1] == Next(trace[i], steps[i])
  }

  ghost predicate FollowsAt(trace: seq<Family>, steps: seq<Step>, i: nat)
    requires i < |steps| && i + 1 < |trace|
  {
    Follows(trace[i], trace[i + 1], steps[i].Dispatch?)
  }

  /** The states of a run, one before each step and the last one. */
  predicate IsTrace(trace: seq<Family>, steps: seq<Step>) {
    && |trace| == |steps| + 1
    && (forall i | 0 <= i < |steps| :: StepAt(trace, steps, i))
  }

  function Dispatches(steps: seq<Step>, n: nat): nat
    requires n <= |steps|
  {
    if n == 0 then 0 else Dispatches(steps, n - 1) + (if steps[n - 1].Dispatch? then 1 else 0)
  }

  predicate TouchedAt(trace: seq<Family>, i: nat, a: Addr)
    requires i + 1 < |trace|
  {
    Touched(trace[i], trace[i + 1], a)
  }

  predicate TouchedBefore(trace: seq<Family>, n: nat, a: Addr)
    requires n < |trace|
  {
    exists i | 0 <= i < n :: TouchedAt(trace, i, a)
  }

  lemma {:induction false} TraceKeeps(trace: seq<Family>, steps: seq<Step>, n: nat)
    requires IsTrace(trace, steps) && n <= |steps| && Inv(trace[0])
    ensures Inv(trace[n])
  {
    if n > 0 {
      TraceKeeps(trace, steps, n - 1);
      assert StepAt(trace, steps, n - 1);
      StepKeeps(trace[n - 1], steps[n - 1]);
    }
  }

  lemma TraceFollows(trace: seq<Family>, steps: seq<Step>)
    requires IsTrace(trace, steps) && Inv(trace[0])
    ensures forall i | 0 <= i < |steps| :: FollowsAt(trace, steps, i)
  {
    forall i | 0 <= i < |steps| ensures FollowsAt(trace, steps, i) {
      TraceKeeps(trace, steps, i);
      assert StepAt(trace, steps, i);
      StepFollows(trace[i], steps[i]);
    }
  }

  lemma {:induction false} TrackPacket(trace: seq<Family>, steps: seq<Step>, k: nat, n: nat)
    requires |trace| == |steps| + 1 && n <= |steps|
    requires forall i | 0 <= i < |steps| :: FollowsAt(trace, steps, i)
    requires k < |trace[0].queue| && trace[0].queue[k].generation != 0
    requires Dispatches(steps, n) <= k
    ensures k - Dispatches(steps, n) < |trace[n].queue|
    ensures Tracked(trace[0].queue[k], trace[n].queue[k - Dispatches(steps, n)],
                    TouchedBefore(trace, n, trace[0].queue[k].addr))
  {
    if n > 0 {
      TrackPacket(trace, steps, k, n - 1);
      var a := trace[0].queue[k].addr;
      assert TouchedAt(trace, n - 1, a) <==> Touched(trace[n - 1], trace[n], a);
      assert FollowsAt(trace, steps, n - 1);
    }
  }

  /** An admission against a neighbor queues a fresh packet with its stamp. */
  lemma AdmissionIsFresh(s: Family, a: Addr, hello: bool)
    requires Inv(s) && Present(s, a)
    ensures var s0 := Admitted(s, a, hello);
            var n := s.nbrs[Find(s.nbrs, a)];
            && Inv(s0)
            && s0.queue == (if Eligible(n, s.afState) then s.queue + [Packet(a, Generation(n.stamp), n.stamp, false)]
                            else s.queue)
  {
    AdmitKeeps(s, a, hello);
    assert NbrOk(s.nbrs[Find(s.nbrs, a)], s.issued, s.afState);
  }

  /** While the family or the neighbor is suspended or locked, nothing of the
      neighbor's is admitted, and nothing already queued is handled. */
  lemma SilentWhileSuspended(s: Family, a: Addr, hello: bool, h: Handler)
    requires Inv(s) && Present(s, a)
    requires var n := s.nbrs[Find(s.nbrs, a)]; s.afState != Open || n.afSuspended || n.limit != NoLimit
    ensures Next(s, Admit(a, hello)) == s
    ensures s.queue != [] && s.queue[0].addr == a ==> Next(s, Dispatch(h)) == s.(queue := s.queue[1..])
  {}

  /** ... and otherwise all is. */
  lemma AdmittedOtherwise(s: Family, a: Addr, hello: bool)
    requires Inv(s) && Present(s, a)
    requires var n := s.nbrs[Find(s.nbrs, a)]; s.afState == Open && !n.afSuspended && n.limit == NoLimit
    ensures EligibleNow(s, a) && |Next(s, Admit(a, hello)).queue| == |s.queue| + 1
  {
    assert NbrOk(s.nbrs[Find(s.nbrs, a)], s.issued, s.afState);
  }

  predicate EligibleNow(s: Family, a: Addr) {
    Present(s, a) && Eligible(s.nbrs[Find(s.nbrs, a)], s.afState)
  }

  /** The fence over whole runs: a fresh packet, next in line after any steps,
      is let through to RTP and DUAL exactly when no step touched its neighbor
      and the neighbor is eligible now. */
  lemma FenceHolds(trace: seq<Family>, steps: seq<Step>, k: nat)
    requires IsTrace(trace, steps) && Inv(trace[0])
    requires k < |trace[0].queue| && trace[0].queue[k].generation != 0 && !trace[0].queue[k].stale
    requires Dispatches(steps, |steps|) == k
    requires trace[|steps|].issued - trace[0].queue[k].stamp < GENERATIONS
    ensures trace[|steps|].queue != [] && trace[|steps|].queue[0].addr == trace[0].queue[k].addr
    ensures Accepts(trace[|steps|], trace[|steps|].queue[0]) <==>
            !TouchedBefore(trace, |steps|, trace[0].queue[k].addr)
            && EligibleNow(trace[|steps|], trace[0].queue[k].addr)
  {
    TraceFollows(trace, steps);
    TrackPacket(trace, steps, k, |steps|);
    TraceKeeps(trace, steps, |steps|);
    GateIsExact(trace[|steps|], 0);
  }

  // ----- locks -----

  lemma FamilyKeepsLock(s: Family, step: Step, a: Addr)
    requires Inv(s) && IsLocked(s, a)
    requires step.AfViolation? || step.AfRestartTimer? || step.AfClear?
    ensures var t := Next(s, step);
            IsLocked(t, a)
  {
    if Next(s, step) != s {
      var af := if step.AfViolation? then step.af else Open;
      AfTouches(s.(afState := af), !step.AfViolation?, a);
    }
  }

  predicate IsLocked(s: Family, a: Addr) {
    Present(s, a) && s.nbrs[Find(s.nbrs, a)].limit == Locked
  }

  lemma MembershipKeepsLock(s: Family, step: Step, a: Addr)
    requires Inv(s) && IsLocked(s, a)
    requires step.Create? || step.Delete?
    ensures if step == Delete(a) then !Present(Next(s, step), a) else IsLocked(Next(s, step), a)
  {
    match step
    case Create(x) =>
      if !Present(s, x) { FindAppended(s.nbrs, Next(s, step).nbrs[|s.nbrs|], a); }
    case Delete(x) =>
      if Present(s, x) { FindDeleted(s.nbrs, Find(s.nbrs, x), a); }
  }

  /** A LOCKED neighbor leaves that state only by being deleted. */
  lemma StepKeepsLock(s: Family, step: Step, a: Addr)
    requires Inv(s) && IsLocked(s, a)
    ensures if step == Delete(a) then !Present(Next(s, step), a) else IsLocked(Next(s, step), a)
  {
    match step
    case Create(_) => MembershipKeepsLock(s, step, a);
    case Delete(_) => MembershipKeepsLock(s, step, a);
    case Admit(_, _) =>
    case Dispatch(h) => if s.queue != [] { PacketKeepsLock(s, h, a); }
    case SetState(_, _) => FindSame(s.nbrs, Next(s, step).nbrs, a);
    case RestartTimer(_) => FindSame(s.nbrs, Next(s, step).nbrs, a);
    case AfViolation(_) => FamilyKeepsLock(s, step, a);
    case AfRestartTimer => FamilyKeepsLock(s, step, a);
    case AfClear => FamilyKeepsLock(s, step, a);
  }

  lemma PacketKeepsLock(s: Family, h: Handler, a: Addr)
    requires Inv(s) && IsLocked(s, a) && s.queue != []
    ensures IsLocked(Dispatched(s, h), a)
  {
    var s1 := s.(queue := s.queue[1..]);
    if Accepts(s1, s.queue[0]) {
      DispatchKeepsLock(s1, Find(s.nbrs, s.queue[0].addr), h, a);
    }
  }

  lemma DispatchKeepsLock(s: Family, at: nat, h: Handler, a: Addr)
    requires Distinct(s.nbrs) && at < |s.nbrs| && Eligible(s.nbrs[at], s.afState)
    requires IsLocked(s, a)
    ensures var t := CleanedUp(Handled(s, at, h), at, h);
            IsLocked(t, a)
  {
    var s1 := Handled(s, at, h);
    var t := CleanedUp(s1, at, h);
    FindSame(s.nbrs, s1.nbrs, a);
    if h.af != Open {
      AfTouches(s1, false, a);
      AfMovedAt(s1.nbrs, false, s1.issued, at);
      var s2 := AfUpdated(s1, false);
      FindSame(s2.nbrs, t.nbrs, a);
    } else {
      FindSame(s.nbrs, t.nbrs, a);
    }
  }

  lemma {:induction false} LockedUntilDeleted(s: Family, steps: seq<Step>, a: Addr)
    requires Inv(s) && IsLocked(s, a)
    requires Delete(a) !in steps
    ensures var u := After(s, steps);
            IsLocked(u, a) && u.nbrs[Find(u.nbrs, a)].state == Down
    decreases |steps|
  {
    if steps == [] {
      assert NbrOk(s.nbrs[Find(s.nbrs, a)], s.issued, s.afState);
    } else {
      StepKeeps(s, steps[0]);
      StepKeepsLock(s, steps[0], a);
      LockedUntilDeleted(Next(s, steps[0]), steps[1..], a);
    }
  }

  // ----- in place -----

  lemma AfMovedSplit(was: seq<Nbr>, i: nat, release: bool, issued: nat)
    requires i < |was|
    ensures AfMoved(was[i..], release, issued) ==
              if was[i].afSuspended != release then [was[i]] + AfMoved(was[i + 1..], release, issued)
              else [AfMove(was[i], release, issued + 1)] + AfMoved(was[i + 1..], release, issued + 1)
    ensures AfMoves(was[i..], release) ==
              (if was[i].afSuspended == release then 1 else 0) + AfMoves(was[i + 1..], release)
  {
    assert was[i..][0] == was[i] && was[i..][1..] == was[i + 1..];
  }

  lemma Reassociate(front: seq<Nbr>, n: Nbr, back: seq<Nbr>)
    ensures front + ([n] + back) == front + [n] + back
  {
  }

  method MoveAll(was: seq<Nbr>, release: bool, start: nat) returns (nbrs: seq<Nbr>, issued: nat)
    ensures nbrs == AfMoved(was, release, start)
    ensures issued == start + AfMoves(was, release)
  {
    issued := start;
    nbrs := [];
    assert was[0..] == was;
    for i := 0 to |was|
      invariant |nbrs| == i
      invariant nbrs + AfMoved(was[i..], release, issued) == AfMoved(was, release, start)
      invariant issued + AfMoves(was[i..], release) == start + AfMoves(was, release)
    {
      AfMovedSplit(was, i, release, issued);
      var n := was[i];
      if was[i].afSuspended == release {
        issued := issued + 1;
        n := AfMove(was[i], release, issued);
      }
      Reassociate(nbrs, n, AfMoved(was[i + 1..], release, issued));
      nbrs := nbrs + [n];
    }
  }

  /** The address family's neighbors, generation counter and packet queue. */
  class Runtime {
    var nbrs: seq<Nbr>
    var afState: AfState
    var issued: nat
    var queue: seq<Packet>

    function View(): Family
      reads this
    {
      Family(nbrs, afState, issued, queue)
    }

    method Lookup(a: Addr) returns (i: nat)
      ensures i == Find(nbrs, a)
    {
      i := 0;
      while i < |nbrs| && nbrs[i].addr != a
        invariant i <= |nbrs|
        invariant Find(nbrs, a) == i + Find(nbrs[i..], a)
      {
        assert nbrs[i..][0] == nbrs[i] && nbrs[i..][1..] == nbrs[i + 1..];
        i := i + 1;
      }
      if i < |nbrs| {
        assert nbrs[i..][0] == nbrs[i];
      }
    }

    method Restamp(i: nat, n: Nbr)
      requires i < |nbrs|
      modifies this
      ensures View() == Restamped(old(View()), i, n)
    {
      issued := issued + 1;
      nbrs := nbrs[i := n.(stamp := issued)];
      queue := Marked(queue, {n.addr});
    }

    method LimitStateUpdate(i: nat, limit: Limit) returns (ok: bool)
      requires i < |nbrs|
      modifies this
      ensures View() == Penalized(old(View()), i, limit)
      ensures ok <==> limit != NoLimit && !(old(nbrs[i].limit) == Locked && limit == Suspended)
    {
      var n := nbrs[i];
      if limit == NoLimit || (n.limit == Locked && limit == Suspended) {
        return false;
      }
      if n.limit == NoLimit {
        Restamp(i, n.(limit := limit, state := Down, cleanup := false));
      } else {
        nbrs := nbrs[i := n.(limit := limit)];
      }
      return true;
    }

    method LimitRelease(i: nat)
      requires i < |nbrs|
      modifies this
      ensures View() == Released(old(View()), i)
    {
      if nbrs[i].limit == Suspended {
        Restamp(i, nbrs[i].(limit := NoLimit));
      }
    }

    /** `eigrp_pfxlimits_nbr_update`: the loop over all neighbors. */
    method NbrUpdate(release: bool)
      modifies this
      ensures View() == AfUpdated(old(View()), release)
    {
      queue := Marked(queue, AfHit(nbrs, release));
      nbrs, issued := MoveAll(nbrs, release, issued);
    }

    /** Penalized or suspended neighbors are DOWN, and stamps tell fresh packets
        from stale ones. */
    ghost predicate Valid()
      reads this
    {
      Inv(View())
    }

    /** `eigrp_packet_ingress_authenticate` after the digest check: exactly a
        packet of an eligible neighbor, or a discovery Hello of an unknown one,
        is queued, and it is fresh. */
    method IngressAuthenticate(a: Addr, discoveryHello: bool) returns (accepted: bool)
      requires Valid()
      modifies this
      ensures Valid() && View() == Admitted(old(View()), a, discoveryHello)
      ensures accepted <==> if Present(View(), a) then EligibleNow(View(), a) else discoveryHello
      ensures |queue| == |old(queue)| + if accepted then 1 else 0
      ensures accepted ==> queue[|queue| - 1].addr == a && !queue[|queue| - 1].stale
      ensures accepted ==> (queue[|queue| - 1].generation != 0 <==> Present(View(), a))
    {
      AdmitKeeps(View(), a, discoveryHello);
      var i := Lookup(a);
      if i < |nbrs| {
        assert NbrOk(nbrs[i], issued, afState);
        accepted := Eligible(nbrs[i], afState);
        if accepted {
          queue := queue + [Packet(a, Generation(nbrs[i].stamp), nbrs[i].stamp, false)];
        }
      } else {
        accepted := discoveryHello;
        if accepted {
          queue := queue + [Packet(a, 0, 0, false)];
        }
      }
    }

    /** `eigrp_nbr_limit_restart_expired` past its deadline: only a suspension
        ends, the neighbor stays DOWN, and no packet admitted before gets through. */
    method RestartExpired(a: Addr)
      requires Valid() && Present(View(), a)
      modifies this
      ensures Valid() && View() == Next(old(View()), RestartTimer(a))
      ensures Present(View(), a) && Find(nbrs, a) == old(Find(nbrs, a))
      ensures var was, now := old(nbrs[Find(nbrs, a)]), nbrs[Find(nbrs, a)];
              && (was.limit == Locked ==> now == was)
              && (was.limit == Suspended ==> now.limit == NoLimit && now.state == Down)
              && (was.limit == Suspended ==> forall k | 0 <= k < |queue| && queue[k].addr == a :: queue[k].stale)
    {
      StepKeeps(View(), RestartTimer(a));
      FindSame(nbrs, Next(View(), RestartTimer(a)).nbrs, a);
      var i := Lookup(a);
      assert NbrOk(nbrs[i], issued, afState);
      LimitRelease(i);
    }

    method CleanUp(i: nat, h: Handler)
      requires i < |nbrs|
      modifies this
      ensures View() == CleanedUp(old(View()), i, h)
    {
      if h.af != Open {
        NbrUpdate(false);
      }
      if nbrs[i].cleanup {
        var _ := LimitStateUpdate(i, h.nbrLimit);
      }
    }

    /** `eigrp_packet_input_process`: a packet with a generation reaches its
        handler exactly when its neighbor was not touched since admission and is
        eligible, as long as fewer than 2^64 - 1 generations were issued. */
    method PacketRead(h: Handler) returns (handled: bool)
      requires Valid() && queue != []
      modifies this
      ensures Valid() && View() == Dispatched(old(View()), h)
      ensures old(queue[0].generation != 0 && issued - queue[0].stamp < GENERATIONS) ==>
                (handled <==> old(!queue[0].stale && EligibleNow(View(), queue[0].addr)))
      ensures !handled ==> nbrs == old(nbrs) && afState == old(afState)
    {
      StepKeeps(View(), Dispatch(h));
      if queue[0].generation != 0 && issued - queue[0].stamp < GENERATIONS {
        GateIsExact(View(), 0);
      }
      handled := Gate();
      if handled {
        var p := queue[0];
        queue := queue[1..];
        var i := Lookup(p.addr);
        Handle(i, h);
        CleanUp(i, h);
      } else {
        queue := queue[1..];
      }
    }

    method Gate() returns (ok: bool)
      requires queue != []
      ensures ok <==> Accepts(View(), queue[0])
    {
      var i := Lookup(queue[0].addr);
      ok := i < |nbrs| && Eligible(nbrs[i], afState) && nbrs[i].stamp > 0
            && queue[0].generation != 0 && queue[0].generation == Generation(nbrs[i].stamp);
    }

    /** The handler's part: the neighbor is marked DOWN, the family flagged. */
    method Handle(i: nat, h: Handler)
      requires i < |nbrs|
      modifies this
      ensures View() == Handled(old(View()), i, h)
    {
      var n := Moved(nbrs[i], h.state);
      if h.nbrLimit != NoLimit && Eligible(n, afState) {
        n := n.(state := Down, cleanup := true);
      }
      nbrs := nbrs[i := n];
      if afState == Open {
        afState := h.af;
      }
    }
  }
}
