/**
 What each step of suspension and fencing does to a neighbor, to the family and to
 the queue: who is taken down, who is penalized or released, and who gets a new
 generation.
 */
module FenceLaws {
  import opened Fence

  function At(s: Family, a: Addr): Nbr
    requires Present(s, a)
  {
    s.nbrs[Find(s.nbrs, a)]
  }

  // ----- what a step means -----

  /** The packet at the front is let through. */
  predicate Handles(s: Family, step: Step) {
    step.Dispatch? && s.queue != [] && Accepts(s, s.queue[0])
  }

  /** The family is suspended or locked: on its own, or by what a packet brought. */
  predicate Closes(s: Family, step: Step) {
    || (step.AfViolation? && s.afState == Open && step.af != Open)
    || (Handles(s, step) && step.h.af != Open)
  }

  predicate Opens(s: Family, step: Step) {
    (step.AfRestartTimer? && s.afState == AfSuspended) || (step.AfClear? && s.afState != Open)
  }

  predicate IsHandled(s: Family, step: Step, a: Addr) { Handles(s, step) && s.queue[0].addr == a }

  /** The neighbor ran into its own limit; a family limit reached by the same
      packet takes its place. */
  predicate Punishes(s: Family, step: Step, a: Addr) {
    IsHandled(s, step, a) && step.h.nbrLimit != NoLimit && step.h.af == Open
  }

  predicate Releases(s: Family, step: Step, a: Addr) {
    Present(s, a) && step == RestartTimer(a) && At(s, a).limit == Suspended
  }

  /** A penalty or a family suspension begins or ends. */
  predicate Turns(n: Nbr, n': Nbr) {
    (n.limit == NoLimit) != (n'.limit == NoLimit) || n.afSuspended != n'.afSuspended
  }

  // ----- the laws -----

  predicate PresenceLaw(s: Family, step: Step, t: Family, a: Addr) {
    Present(t, a) <==> (Present(s, a) && step != Delete(a)) || step == Create(a)
  }

  predicate NewLaw(s: Family, t: Family, a: Addr) {
    !Present(s, a) && Present(t, a) ==> At(t, a) == Nbr(a, Down, NoLimit, false, false, s.issued + 1)
  }

  predicate NbrLaw(s: Family, step: Step, t: Family, a: Addr) {
    Present(s, a) && Present(t, a) ==>
      var n, n' := At(s, a), At(t, a);
      && n'.afSuspended == (if Closes(s, step) then true else if Opens(s, step) then false else n.afSuspended)
      && n'.limit == (if Punishes(s, step, a) then step.h.nbrLimit
                      else if Releases(s, step, a) then NoLimit else n.limit)
      && n'.state == (if Closes(s, step) || Punishes(s, step, a) then Down
                      else if IsHandled(s, step, a) then step.h.state
                      else if step.SetState? && step.a == a && n.limit == NoLimit && !n.afSuspended then step.state
                      else n.state)
      && (if Turns(n, n') then n'.stamp > s.issued else n'.stamp == n.stamp)
  }

  predicate FamilyLaw(s: Family, step: Step, t: Family) {
    t.afState == if Closes(s, step) then (if step.AfViolation? then step.af else step.h.af)
                 else if Opens(s, step) then Open else s.afState
  }

  /** A dispatch takes the front packet, an admission may add one at the end, and
      nobody else changes whose packets are queued. */
  predicate QueueLaw(s: Family, step: Step, t: Family) {
    match step
    case Dispatch(_) => |t.queue| == (if s.queue == [] then 0 else |s.queue| - 1)
                        && forall k | 0 <= k < |t.queue| :: SamePacket(s.queue[k + 1], t.queue[k])
    case Admit(a, hello) =>
      t.queue == (if Present(s, a) && At(s, a).stamp > 0 && At(s, a).limit == NoLimit && !At(s, a).afSuspended && s.afState == Open
                  then s.queue + [Packet(a, Generation(At(s, a).stamp), At(s, a).stamp, false)]
                  else if !Present(s, a) && hello then s.queue + [Packet(a, 0, 0, false)]
                  else s.queue)
    case _ => |t.queue| == |s.queue| && forall k | 0 <= k < |t.queue| :: SamePacket(s.queue[k], t.queue[k])
  }

  predicate SamePacket(p: Packet, q: Packet) {
    p.addr == q.addr && p.generation == q.generation && p.stamp == q.stamp
  }

  predicate StepLaw(s: Family, step: Step, t: Family, a: Addr) {
    && PresenceLaw(s, step, t, a) && NewLaw(s, t, a) && NbrLaw(s, step, t, a)
    && FamilyLaw(s, step, t) && QueueLaw(s, step, t)
  }

  // ----- the penalty engine -----

  /** What the penalty engine may do to a neighbor: a lock stays, and no penalty is
      taken back by a milder one; the first penalty takes the neighbor down and
      gives it a new generation, later ones do not. */
  lemma PenaltyIs(s: Family, i: nat, limit: Limit)
    requires i < |s.nbrs|
    ensures var t := Penalized(s, i, limit);
            var n, n' := s.nbrs[i], t.nbrs[i];
            && |t.nbrs| == |s.nbrs| && (forall k | 0 <= k < |s.nbrs| && k != i :: t.nbrs[k] == s.nbrs[k])
            && t.afState == s.afState && n'.addr == n.addr && n'.afSuspended == n.afSuspended
            && n'.limit == (if limit == NoLimit || n.limit == Locked then n.limit else limit)
            && n'.state == (if n.limit == NoLimit && limit != NoLimit then Down else n.state)
            && n'.stamp == (if n.limit == NoLimit && limit != NoLimit then s.issued + 1 else n.stamp)
            && t.issued == (if n.limit == NoLimit && limit != NoLimit then s.issued + 1 else s.issued)
  {}

  /** Generations are the nonzero 64-bit numbers in turn. */
  lemma GenerationIs(k: nat)
    requires k > 0
    ensures Generation(1) == 1
    ensures Generation(k + 1) == if Generation(k) == 0xffff_ffff_ffff_ffff then 1 else Generation(k) + 1
  {}

  // ----- the proof -----

  lemma Stays(s: Family, t: Family, a: Addr)
    requires |s.nbrs| == |t.nbrs| && forall i | 0 <= i < |s.nbrs| :: s.nbrs[i].addr == t.nbrs[i].addr
    ensures Find(t.nbrs, a) == Find(s.nbrs, a)
  {
    FindSame(s.nbrs, t.nbrs, a);
  }

  lemma CreateLaw(s: Family, x: Addr, a: Addr)
    requires Inv(s)
    ensures StepLaw(s, Create(x), Next(s, Create(x)), a)
  {
    var t := Next(s, Create(x));
    if !Present(s, x) {
      var n := t.nbrs[|s.nbrs|];
      if Present(s, a) { FindAppended(s.nbrs, n, a); } else { FindNew(s.nbrs, n, a); }
    }
  }

  lemma {:induction false} FindNew(nbrs: seq<Nbr>, n: Nbr, a: Addr)
    requires Find(nbrs, a) == |nbrs|
    ensures Find(nbrs + [n], a) == if n.addr == a then |nbrs| else |nbrs| + 1
    decreases |nbrs|
  {
    if nbrs == [] {
      assert nbrs + [n] == [n] && [n][1..] == [];
    } else {
      assert (nbrs + [n])[1..] == nbrs[1..] + [n];
      FindNew(nbrs[1..], n, a);
    }
  }

  lemma DeleteLaw(s: Family, x: Addr, a: Addr)
    requires Inv(s)
    ensures StepLaw(s, Delete(x), Next(s, Delete(x)), a)
  {
    var at := Find(s.nbrs, x);
    if at < |s.nbrs| {
      FindDeleted(s.nbrs, at, a);
      if Find(s.nbrs, a) == |s.nbrs| { NotAfterDelete(s.nbrs, at, a); }
    }
  }

  lemma NotAfterDelete(nbrs: seq<Nbr>, at: nat, a: Addr)
    requires at < |nbrs| && Find(nbrs, a) == |nbrs|
    ensures var rest := nbrs[..at] + nbrs[at + 1..]; Find(rest, a) == |rest|
  {
    var rest := nbrs[..at] + nbrs[at + 1..];
    FindIsFirst(nbrs, a);
    forall k | 0 <= k < |rest| ensures rest[k].addr != a {
      assert rest[k] == nbrs[if k < at then k else k + 1];
    }
    NotFound(rest, a);
  }

  lemma {:induction false} NotFound(nbrs: seq<Nbr>, a: Addr)
    requires forall k | 0 <= k < |nbrs| :: nbrs[k].addr != a
    ensures Find(nbrs, a) == |nbrs|
    decreases |nbrs|
  {
    if nbrs != [] { NotFound(nbrs[1..], a); }
  }

  lemma SetStateLaw(s: Family, x: Addr, state: State, a: Addr)
    requires Inv(s)
    ensures StepLaw(s, SetState(x, state), Next(s, SetState(x, state)), a)
  {
    var t := Next(s, SetState(x, state));
    Stays(s, t, a);
    assert t.queue == s.queue && t.afState == s.afState;
    if Present(s, x) { assert NbrOk(At(s, x), s.issued, s.afState); }
  }

  lemma ReleaseLaw(s: Family, x: Addr, a: Addr)
    requires Inv(s)
    ensures StepLaw(s, RestartTimer(x), Next(s, RestartTimer(x)), a)
  {
    Stays(s, Next(s, RestartTimer(x)), a);
    if Present(s, x) { assert NbrOk(At(s, x), s.issued, s.afState); }
  }

  lemma AdmitLaw(s: Family, x: Addr, hello: bool, a: Addr)
    requires Inv(s)
    ensures StepLaw(s, Admit(x, hello), Admitted(s, x, hello), a)
  {
    Stays(s, Admitted(s, x, hello), a);
    if Present(s, x) { assert NbrOk(At(s, x), s.issued, s.afState); }
  }

  /** The loop over all neighbors, as one of them sees it. */
  lemma AllMove(s: Family, release: bool, a: Addr)
    requires Distinct(s.nbrs)
    ensures var t := AfUpdated(s, release);
            && (Present(t, a) <==> Present(s, a))
            && (Present(s, a) && At(s, a).afSuspended != release ==> At(t, a) == At(s, a))
            && (Present(s, a) && At(s, a).afSuspended == release ==>
                  At(t, a).stamp > s.issued && At(t, a) == AfMove(At(s, a), release, At(t, a).stamp))
  {
    var t := AfUpdated(s, release);
    forall i | 0 <= i < |s.nbrs| ensures t.nbrs[i].addr == s.nbrs[i].addr {
      AfMovedAt(s.nbrs, release, s.issued, i);
    }
    Stays(s, t, a);
    if Present(s, a) { AfMovedAt(s.nbrs, release, s.issued, Find(s.nbrs, a)); }
  }

  lemma AfLaw(s: Family, step: Step, a: Addr)
    requires Inv(s) && (step.AfViolation? || step.AfRestartTimer? || step.AfClear?)
    ensures StepLaw(s, step, Next(s, step), a)
  {
    if Closes(s, step) || Opens(s, step) {
      AllMove(s.(afState := if Closes(s, step) then step.af else Open), Opens(s, step), a);
      if Present(s, a) { assert NbrOk(At(s, a), s.issued, s.afState); }
    }
  }

  /** What the handler leaves behind for one neighbor. */
  lemma HandledAt(s: Family, i: nat, h: Handler, a: Addr)
    requires Inv(s) && i < |s.nbrs| && Eligible(s.nbrs[i], s.afState)
    ensures var t := Handled(s, i, h);
            && Find(t.nbrs, a) == Find(s.nbrs, a) && t.afState == h.af && t.queue == s.queue && t.issued == s.issued
            && Distinct(t.nbrs)
            && (Present(s, a) && Find(s.nbrs, a) != i ==> At(t, a) == At(s, a))
            && (Find(s.nbrs, a) == i ==>
                  At(t, a) == At(s, a).(state := if h.nbrLimit != NoLimit then Down else h.state,
                                        cleanup := h.nbrLimit != NoLimit))
  {
    Stays(s, Handled(s, i, h), a);
    assert NbrOk(s.nbrs[i], s.issued, s.afState);
  }

  /** The cleanup after a packet that reached the family's limit. */
  lemma ClosingLaw(s: Family, i: nat, h: Handler, a: Addr)
    requires Inv(s) && i < |s.nbrs| && Eligible(s.nbrs[i], s.afState) && h.af != Open
    ensures var t := CleanedUp(Handled(s, i, h), i, h);
            && Find(t.nbrs, a) == Find(s.nbrs, a) && t.afState == h.af
            && (Present(s, a) && |t.nbrs| == |s.nbrs| ==>
                  At(t, a).afSuspended && At(t, a).limit == At(s, a).limit && At(t, a).state == Down
                  && At(t, a).stamp > s.issued)
            && |t.nbrs| == |s.nbrs|
  {
    var s1 := Handled(s, i, h);
    HandledAt(s, i, h, a);
    AllMove(s1, false, a);
    HandledAt(s, i, h, s.nbrs[i].addr);
    FindIs(s.nbrs, i);
    AllMove(s1, false, s.nbrs[i].addr);
    forall k | 0 <= k < |s.nbrs| ensures AfUpdated(s1, false).nbrs[k].addr == s.nbrs[k].addr {
      AfMovedAt(s1.nbrs, false, s1.issued, k);
    }
    Stays(s, AfUpdated(s1, false), a);
    Stays(s, AfUpdated(s1, false), s.nbrs[i].addr);
    if Present(s, a) { assert NbrOk(At(s, a), s.issued, s.afState); }
  }

  /** The cleanup after a packet that left the family open. */
  lemma OpenLaw(s: Family, i: nat, h: Handler, a: Addr)
    requires Inv(s) && i < |s.nbrs| && Eligible(s.nbrs[i], s.afState) && h.af == Open
    ensures var t := CleanedUp(Handled(s, i, h), i, h);
            && Find(t.nbrs, a) == Find(s.nbrs, a) && |t.nbrs| == |s.nbrs| && t.afState == Open
            && (Present(s, a) && Find(s.nbrs, a) != i ==> At(t, a) == At(s, a))
            && (Find(s.nbrs, a) == i && h.nbrLimit == NoLimit ==> At(t, a) == At(s, a).(state := h.state))
            && (Find(s.nbrs, a) == i && h.nbrLimit != NoLimit ==>
                  At(t, a) == At(s, a).(state := Down, limit := h.nbrLimit, stamp := s.issued + 1))
  {
    HandledAt(s, i, h, a);
    HandledAt(s, i, h, s.nbrs[i].addr);
    FindIs(s.nbrs, i);
    Stays(s, CleanedUp(Handled(s, i, h), i, h), a);
  }

  /** Cleaning up marks packets and moves none. */
  lemma QueueStays(s: Family, i: nat, h: Handler)
    requires i < |s.nbrs|
    ensures var t := CleanedUp(Handled(s, i, h), i, h);
            |t.queue| == |s.queue| && forall k | 0 <= k < |s.queue| :: SamePacket(s.queue[k], t.queue[k])
  {}

  lemma DispatchLaw(s: Family, h: Handler, a: Addr)
    requires Inv(s)
    ensures StepLaw(s, Dispatch(h), Dispatched(s, h), a)
  {
    if s.queue != [] {
      PopKeeps(s);
      var s1 := s.(queue := s.queue[1..]);
      if Accepts(s1, s.queue[0]) {
        var i := Find(s.nbrs, s.queue[0].addr);
        QueueStays(s1, i, h);
        if h.af != Open { ClosingLaw(s1, i, h, a); } else { OpenLaw(s1, i, h, a); }
        HandledLaw(s, h, a, i, CleanedUp(Handled(s1, i, h), i, h));
      }
    }
  }

  lemma HandledLaw(s: Family, h: Handler, a: Addr, i: nat, t: Family)
    requires Inv(s) && Handles(s, Dispatch(h)) && i == Find(s.nbrs, s.queue[0].addr)
    requires Find(t.nbrs, a) == Find(s.nbrs, a) && |t.nbrs| == |s.nbrs| && t.afState == h.af
    requires Present(s, a) && h.af != Open ==>
               At(t, a).afSuspended && At(t, a).limit == At(s, a).limit && At(t, a).state == Down
               && At(t, a).stamp > s.issued
    requires Present(s, a) && h.af == Open && Find(s.nbrs, a) != i ==> At(t, a) == At(s, a)
    requires Find(s.nbrs, a) == i && h.af == Open && h.nbrLimit == NoLimit ==> At(t, a) == At(s, a).(state := h.state)
    requires Find(s.nbrs, a) == i && h.af == Open && h.nbrLimit != NoLimit ==>
               At(t, a) == At(s, a).(state := Down, limit := h.nbrLimit, stamp := s.issued + 1)
    requires |t.queue| == |s.queue| - 1 && forall k | 0 <= k < |t.queue| :: SamePacket(s.queue[k + 1], t.queue[k])
    ensures StepLaw(s, Dispatch(h), t, a)
  {
    if Present(s, a) { assert NbrOk(At(s, a), s.issued, s.afState); }
  }

  /** Every step obeys the laws for every neighbor. */
  lemma StepIsLawful(s: Family, step: Step, a: Addr)
    requires Inv(s)
    ensures StepLaw(s, step, Next(s, step), a)
  {
    match step
    case Create(x) => CreateLaw(s, x, a);
    case Delete(x) => DeleteLaw(s, x, a);
    case Dispatch(h) => DispatchLaw(s, h, a);
    case SetState(x, state) => SetStateLaw(s, x, state, a);
    case RestartTimer(x) => ReleaseLaw(s, x, a);
    case Admit(x, hello) => AdmitLaw(s, x, hello, a);
    case _ => AfLaw(s, step, a);
  }
}
