/**
 When the writer of an address family runs: enqueues and multicast wake-ups
 schedule it, a call reschedules it or leaves the pacing timer, and no interface
 on the write queue is left with something to send while the writer sleeps.
 */
module WriterSchedule {
  type Id = nat

  /** `output` packets are queued, `pending` multicasts deferred; `blocked` stands
      for a backoff, a wait or the retry timer, which make the writer skip them. */
  datatype Intf = Intf(output: nat, pending: nat, blocked: bool)

  /** `queue` is `oi_write_q`, `scheduled` an outstanding write event, `pacing`
      the armed pacing timer. */
  datatype Family = Family(intfs: map<Id, Intf>, queue: seq<Id>, scheduled: bool, pacing: bool)

  /** An interface that the writer could serve, now or after its delay. */
  predicate Sendable(i: Intf) {
    i.output > 0 || (i.pending > 0 && !i.blocked)
  }

  ghost predicate HasWork(f: Family) {
    exists id :: id in f.queue && id in f.intfs && Sendable(f.intfs[id])
  }

  /** The writer sleeps only when nothing on its queue can be sent. */
  ghost predicate Awake(f: Family) {
    && (forall id :: id in f.queue ==> id in f.intfs)
    && (forall i, j | 0 <= i < j < |f.queue| :: f.queue[i] != f.queue[j])
    && (HasWork(f) ==> f.scheduled || f.pacing)
  }

  // ----- one interface in a scan -----

  /** What an admission attempt comes to, `eigrp_packet_multicast_admit`: the image
      is queued, behind a SEQUENCE Hello when a receiver is busy; a multicast
      without receivers is cancelled; otherwise something blocks the next attempt. */
  datatype Admission = Go(hellos: nat) | Cancel | Block

  /** What the scan meets at an interface: the outcome of an admission, should it
      be attempted, and the pacing delay of the head (0 for Hellos). */
  datatype Look = Look(admission: Admission, wait: nat)

  predicate Attempts(i: Intf) { i.output == 0 && i.pending > 0 && !i.blocked }

  function Looked(i: Intf, look: Look): Intf {
    if !Attempts(i) then i
    else
      match look.admission
      case Go(hellos) => i.(output := hellos + 1, pending := i.pending - 1)
      case Cancel => i.(pending := i.pending - 1)
      case Block => i.(blocked := true)
  }

  /** An admitted image, and a wake-up after a cancelled multicast when more are
      pending, schedule the writer. */
  predicate Schedules(i: Intf, look: Look) {
    Attempts(i) && (look.admission.Go? || (look.admission.Cancel? && i.pending > 1))
  }

  predicate Ready(i: Intf, look: Look) { Looked(i, look).output > 0 && look.wait == 0 }

  predicate Waits(i: Intf, look: Look) { Looked(i, look).output > 0 && look.wait > 0 }

  /** Whatever an interface can still send after the look was found ready, waits
      for its pacing delay, or scheduled the writer again. */
  lemma LookMissesNothing(i: Intf, look: Look)
    ensures Sendable(Looked(i, look)) ==> Ready(i, look) || Waits(i, look) || Schedules(i, look)
  {}

  // ----- the steps -----

  datatype Step =
    | Register(id: Id)
    | Enqueue(id: Id)
    | Defer(id: Id, wakes: bool)
    | Resume(id: Id, wakes: bool)
    | RetryExpired(id: Id)
    | Drop(id: Id, left: nat)
    | InterfaceDown(id: Id)
    | PacingExpired
    | Write(looks: map<Id, Look>, at: nat)

  function LookAt(looks: map<Id, Look>, id: Id): Look {
    if id in looks then looks[id] else Look(Block, 1)
  }

  function Joined(q: seq<Id>, id: Id): seq<Id> { if id in q then q else q + [id] }

  function Left(q: seq<Id>, id: Id): seq<Id> {
    if q == [] then [] else if q[0] == id then q[1..] else [q[0]] + Left(q[1..], id)
  }

  /** `eigrp_packet_output_enqueue`: on the queue, and the writer scheduled. */
  function Enqueued(f: Family, id: Id): Family
    requires id in f.intfs
  {
    f.(intfs := f.intfs[id := f.intfs[id].(output := f.intfs[id].output + 1)],
       queue := Joined(f.queue, id), scheduled := true)
  }

  /** `eigrp_packet_multicast_resume`: only a blocked interface stays asleep. */
  function Resumed(f: Family, id: Id, wakes: bool): Family
    requires id in f.intfs
  {
    var i := f.intfs[id];
    if i.pending == 0 || (i.blocked && !wakes) then f
    else f.(intfs := f.intfs[id := i.(blocked := false)], queue := Joined(f.queue, id), scheduled := true)
  }

  /** The scan reaches position `at` of the queue, or its end. */
  predicate Reached(f: Family, at: nat, id: Id) {
    exists j | 0 <= j < |f.queue| && j <= at :: f.queue[j] == id
  }

  /** `at` is the first interface that is ready, or the length of the queue. */
  predicate StopsAt(f: Family, looks: map<Id, Look>, at: nat)
    requires forall id :: id in f.queue ==> id in f.intfs
  {
    && at <= |f.queue|
    && (forall j | 0 <= j < at :: !Ready(f.intfs[f.queue[j]], LookAt(looks, f.queue[j])))
    && (at < |f.queue| ==> Ready(f.intfs[f.queue[at]], LookAt(looks, f.queue[at])))
  }

  /** The interfaces after the scan. */
  ghost function Scanned(f: Family, looks: map<Id, Look>, at: nat): map<Id, Intf> {
    map id | id in f.intfs :: if Reached(f, at, id) then Looked(f.intfs[id], LookAt(looks, id)) else f.intfs[id]
  }

  ghost predicate AnySchedules(f: Family, looks: map<Id, Look>, at: nat) {
    exists id :: id in f.intfs && Reached(f, at, id) && Schedules(f.intfs[id], LookAt(looks, id))
  }

  ghost predicate AnyWaits(f: Family, looks: map<Id, Look>, at: nat) {
    exists id :: id in f.intfs && Reached(f, at, id) && Waits(f.intfs[id], LookAt(looks, id))
  }

  /** Nothing was ready: the pacing timer for the least delay, if any. */
  ghost function Paced(f: Family, looks: map<Id, Look>): Family {
    f.(intfs := Scanned(f, looks, |f.queue|),
       scheduled := AnySchedules(f, looks, |f.queue|),
       pacing := f.pacing || AnyWaits(f, looks, |f.queue|))
  }

  /** The ready head is sent; the interface leaves when it has nothing left, and
      goes last otherwise. */
  ghost function ServedQueue(f: Family, i: Intf, at: nat): seq<Id>
    requires at < |f.queue|
  {
    var rest := f.queue[..at] + f.queue[at + 1..];
    if i.output == 0 && i.pending == 0 then rest else rest + [f.queue[at]]
  }

  ghost function Served(f: Family, looks: map<Id, Look>, at: nat): Family
    requires at < |f.queue| && f.queue[at] in f.intfs
  {
    var id := f.queue[at];
    var intfs := Scanned(f, looks, at);
    var i := if intfs[id].output > 0 then intfs[id].(output := intfs[id].output - 1) else intfs[id];
    var g := f.(intfs := intfs[id := i], queue := ServedQueue(f, i, at), pacing := false);
    g.(scheduled := AnySchedules(f, looks, at) || HasWork(g))
  }

  /** `eigrp_packet_write`, its write event consumed. */
  ghost function Written(f: Family, looks: map<Id, Look>, at: nat): Family
    requires (forall id :: id in f.queue ==> id in f.intfs) && at <= |f.queue|
  {
    if at == |f.queue| then Paced(f, looks) else Served(f, looks, at)
  }

  /** A resume leaves an interface alone only if something blocks it; the writer
      runs when its event fired. */
  ghost predicate Enabled(f: Family, step: Step)
    requires Awake(f)
  {
    match step
    case Register(id) => id !in f.intfs
    case Enqueue(id) => id in f.intfs
    case Defer(id, _) => id in f.intfs
    case Resume(id, _) => id in f.intfs
    case RetryExpired(id) => id in f.intfs
    case Drop(id, left) => id in f.intfs && left <= f.intfs[id].output
    case InterfaceDown(id) => id in f.intfs
    case PacingExpired => f.pacing
    case Write(looks, at) => f.scheduled && StopsAt(f, looks, at)
  }

  ghost function Next(f: Family, step: Step): Family
    requires Awake(f) && Enabled(f, step)
  {
    match step
    case Register(id) => f.(intfs := f.intfs[id := Intf(0, 0, false)])
    case Enqueue(id) => Enqueued(f, id)
    case Defer(id, wakes) =>
      Resumed(f.(intfs := f.intfs[id := f.intfs[id].(pending := f.intfs[id].pending + 1)]), id, wakes)
    case Resume(id, wakes) => Resumed(f, id, wakes)
    case RetryExpired(id) =>
      Resumed(f.(intfs := f.intfs[id := f.intfs[id].(blocked := false)]), id, true)
    case Drop(id, left) =>
      f.(intfs := f.intfs[id := f.intfs[id].(output := left)],
         queue := if left == 0 then Left(f.queue, id) else f.queue)
    case InterfaceDown(id) =>
      f.(intfs := f.intfs[id := Intf(0, 0, false)], queue := Left(f.queue, id))
    case PacingExpired => f.(pacing := false, scheduled := true)
    case Write(looks, at) => Written(f, looks, at)
  }

  // ----- the proof -----

  lemma {:induction false} LeftIs(q: seq<Id>, id: Id)
    requires forall i, j | 0 <= i < j < |q| :: q[i] != q[j]
    ensures forall x :: x in Left(q, id) <==> x in q && x != id
    ensures forall i, j | 0 <= i < j < |Left(q, id)| :: Left(q, id)[i] != Left(q, id)[j]
    decreases |q|
  {
    if q != [] {
      var rest := q[1..];
      assert q == [q[0]] + rest;
      assert q[0] !in rest;
      LeftIs(rest, id);
    }
  }

  /** Work that was there before, on the interfaces other than `id`. */
  lemma WorkBefore(f: Family, g: Family, id: Id)
    requires HasWork(g)
    requires forall x :: x in g.queue && x != id ==> x in f.queue
    requires forall x :: x in f.intfs && x != id ==> x in g.intfs && g.intfs[x] == f.intfs[x]
    requires forall x :: x in g.intfs && x != id ==> x in f.intfs
    ensures HasWork(f) || (id in g.queue && id in g.intfs && Sendable(g.intfs[id]))
  {
    var x :| x in g.queue && x in g.intfs && Sendable(g.intfs[x]);
    if x != id {
      assert x in f.queue && x in f.intfs && Sendable(f.intfs[x]);
    }
  }

  lemma ResumeKeeps(f: Family, id: Id, wakes: bool, was: Family)
    requires id in f.intfs && Awake(was)
    requires f == was.(intfs := was.intfs[id := f.intfs[id]]) && id in was.intfs
    requires f.intfs[id].output == was.intfs[id].output
    ensures Awake(Resumed(f, id, wakes))
  {
    var g := Resumed(f, id, wakes);
    if (f.intfs[id].pending == 0 || (f.intfs[id].blocked && !wakes)) && HasWork(g) {
      WorkBefore(was, g, id);
      if id in g.queue && Sendable(g.intfs[id]) {
        assert f.intfs[id].output > 0;
        assert Sendable(was.intfs[id]) && id in was.queue;
      }
    }
  }

  lemma DropKeeps(f: Family, id: Id, left: nat)
    requires Awake(f) && id in f.intfs && left <= f.intfs[id].output
    ensures Awake(Next(f, Drop(id, left)))
  {
    var g := Next(f, Drop(id, left));
    LeftIs(f.queue, id);
    if HasWork(g) {
      WorkBefore(f, g, id);
      if id in g.queue {
        assert id in f.queue && Sendable(f.intfs[id]);
      }
    }
  }

  lemma DownKeeps(f: Family, id: Id)
    requires Awake(f) && id in f.intfs
    ensures Awake(Next(f, InterfaceDown(id)))
  {
    var g := Next(f, InterfaceDown(id));
    LeftIs(f.queue, id);
    if HasWork(g) { WorkBefore(f, g, id); }
  }

  /** A call that finds nothing ready has looked at every queued interface. */
  lemma PacedKeeps(f: Family, looks: map<Id, Look>)
    requires Awake(f) && StopsAt(f, looks, |f.queue|)
    ensures Awake(Paced(f, looks))
  {
    var g := Paced(f, looks);
    if HasWork(g) {
      var x :| x in g.queue && x in g.intfs && Sendable(g.intfs[x]);
      var j :| 0 <= j < |f.queue| && f.queue[j] == x;
      assert Reached(f, |f.queue|, x);
      LookMissesNothing(f.intfs[x], LookAt(looks, x));
    }
  }

  lemma ServedQueueIs(f: Family, i: Intf, at: nat)
    requires Awake(f) && at < |f.queue|
    ensures forall x :: x in ServedQueue(f, i, at) ==> x in f.queue
    ensures var q := ServedQueue(f, i, at); forall j, k | 0 <= j < k < |q| :: q[j] != q[k]
  {
    var rest := f.queue[..at] + f.queue[at + 1..];
    assert forall j | 0 <= j < |rest| :: rest[j] == f.queue[if j < at then j else j + 1];
  }

  lemma ServedKeeps(f: Family, looks: map<Id, Look>, at: nat)
    requires Awake(f) && at < |f.queue|
    ensures Awake(Served(f, looks, at))
  {
    var g := Served(f, looks, at);
    ServedQueueIs(f, g.intfs[f.queue[at]], at);
    assert forall x :: x in f.intfs ==> x in g.intfs;
  }

  /** Every step keeps the writer awake while there is work. */
  lemma StepKeepsAwake(f: Family, step: Step)
    requires Awake(f) && Enabled(f, step)
    ensures Awake(Next(f, step))
  {
    match step
    case Register(id) => if HasWork(Next(f, step)) { WorkBefore(f, Next(f, step), id); }
    case Enqueue(id) =>
    case Defer(id, wakes) =>
      ResumeKeeps(f.(intfs := f.intfs[id := f.intfs[id].(pending := f.intfs[id].pending + 1)]), id, wakes, f);
    case Resume(id, wakes) => ResumeKeeps(f, id, wakes, f);
    case RetryExpired(id) =>
      ResumeKeeps(f.(intfs := f.intfs[id := f.intfs[id].(blocked := false)]), id, true, f);
    case Drop(id, left) => DropKeeps(f, id, left);
    case InterfaceDown(id) => DownKeeps(f, id);
    case PacingExpired =>
    case Write(looks, at) =>
      if at == |f.queue| { PacedKeeps(f, looks); } else { ServedKeeps(f, looks, at); }
  }

  ghost predicate IsRun(f: Family, steps: seq<Step>)
    requires Awake(f)
    decreases |steps|
  {
    if steps == [] then true
    else
      Enabled(f, steps[0]) && (StepKeepsAwake(f, steps[0]); IsRun(Next(f, steps[0]), steps[1..]))
  }

  ghost function After(f: Family, steps: seq<Step>): Family
    requires Awake(f) && IsRun(f, steps)
    decreases |steps|
  {
    if steps == [] then f else StepKeepsAwake(f, steps[0]); After(Next(f, steps[0]), steps[1..])
  }

  const IDLE := Family(map[], [], false, false)

  /** Over every run of enqueues, wake-ups, drops, timer expiries and writes: as
      long as a queued interface has output or an admissible multicast, the writer
      is scheduled or the pacing timer armed. */
  lemma {:induction false} WriterNeverSleepsOnWork(f: Family, steps: seq<Step>)
    requires Awake(f) && IsRun(f, steps)
    ensures HasWork(After(f, steps)) ==> After(f, steps).scheduled || After(f, steps).pacing
    decreases |steps|
  {
    if steps != [] {
      StepKeepsAwake(f, steps[0]);
      WriterNeverSleepsOnWork(Next(f, steps[0]), steps[1..]);
    }
  }

  lemma IdleIsAwake()
    ensures Awake(IDLE)
  {}

  // ----- what a step does to an interface -----

  /** The scan of a write call comes to the interface and finds nothing queued but
      an admissible multicast. */
  predicate Tries(f: Family, step: Step, id: Id)
    requires id in f.intfs
  {
    && step.Write? && Reached(f, step.at, id)
    && f.intfs[id].output == 0 && f.intfs[id].pending > 0 && !f.intfs[id].blocked
  }

  function Outcome(step: Step, id: Id): Admission
    requires step.Write?
  {
    LookAt(step.looks, id).admission
  }

  /** The interface whose packet the call sends. */
  predicate Sends(f: Family, step: Step, id: Id) {
    step.Write? && step.at < |f.queue| && f.queue[step.at] == id
  }

  /** Packets that come to the output queue, and multicasts to the pending one. */
  function OutputIn(f: Family, step: Step, id: Id): nat
    requires id in f.intfs
  {
    if step == Enqueue(id) then 1
    else if Tries(f, step, id) && Outcome(step, id).Go? then Outcome(step, id).hellos + 1
    else 0
  }

  function PendingIn(step: Step, id: Id): nat { if step.Defer? && step.id == id then 1 else 0 }

  /** What leaves them: sent, dropped, or lost with the interface; admitted or
      cancelled. */
  function OutputOut(f: Family, step: Step, id: Id): nat
    requires id in f.intfs && (step.Drop? && step.id == id ==> step.left <= f.intfs[id].output)
  {
    if Sends(f, step, id) then 1
    else if step.Drop? && step.id == id then f.intfs[id].output - step.left
    else if step == InterfaceDown(id) then f.intfs[id].output
    else 0
  }

  function PendingOut(f: Family, step: Step, id: Id): nat
    requires id in f.intfs
  {
    if Tries(f, step, id) && !Outcome(step, id).Block? then 1
    else if step == InterfaceDown(id) then f.intfs[id].pending
    else 0
  }

  /** An attempt to wake the writer for the interface's multicasts. */
  predicate Wakes(f: Family, step: Step, id: Id)
    requires id in f.intfs
  {
    match step
    case Defer(x, wakes) => x == id && (wakes || !f.intfs[id].blocked)
    case Resume(x, wakes) => x == id && f.intfs[id].pending > 0 && (wakes || !f.intfs[id].blocked)
    case RetryExpired(x) => x == id && f.intfs[id].pending > 0
    case _ => false
  }

  /** Nothing is lost or made up: what comes in is sent, dropped or still there. */
  lemma StepBalances(f: Family, step: Step, id: Id)
    requires Awake(f) && Enabled(f, step) && id in f.intfs
    ensures var g := Next(f, step);
            && id in g.intfs
            && g.intfs[id].output + OutputOut(f, step, id) == f.intfs[id].output + OutputIn(f, step, id)
            && g.intfs[id].pending + PendingOut(f, step, id) == f.intfs[id].pending + PendingIn(step, id)
  {
    if step.Write? {
      if step.at == |f.queue| { PacedBalances(f, step, id); } else { ServedBalances(f, step, id); }
    } else {
      OtherBalances(f, step, id);
    }
  }

  predicate Balances(f: Family, step: Step, g: Family, id: Id)
    requires id in f.intfs && (step.Drop? && step.id == id ==> step.left <= f.intfs[id].output)
  {
    && id in g.intfs
    && g.intfs[id].output + OutputOut(f, step, id) == f.intfs[id].output + OutputIn(f, step, id)
    && g.intfs[id].pending + PendingOut(f, step, id) == f.intfs[id].pending + PendingIn(step, id)
  }

  lemma PacedBalances(f: Family, step: Step, id: Id)
    requires Awake(f) && Enabled(f, step) && step.Write? && step.at == |f.queue| && id in f.intfs
    ensures Balances(f, step, Paced(f, step.looks), id)
  {}

  lemma ServedBalances(f: Family, step: Step, id: Id)
    requires Awake(f) && Enabled(f, step) && step.Write? && step.at < |f.queue| && id in f.intfs
    ensures Balances(f, step, Served(f, step.looks, step.at), id)
  {
    assert Reached(f, step.at, f.queue[step.at]);
  }

  lemma OtherBalances(f: Family, step: Step, id: Id)
    requires Awake(f) && Enabled(f, step) && !step.Write? && id in f.intfs
    ensures Balances(f, step, Next(f, step), id)
  {}

  /** What a call sends is the first packet on the queue that need not wait. */
  lemma SentIsReady(f: Family, step: Step, id: Id)
    requires Awake(f) && Enabled(f, step) && Sends(f, step, id)
    ensures f.intfs[id].output + OutputIn(f, step, id) > 0 && LookAt(step.looks, id).wait == 0
    ensures forall j | 0 <= j < step.at ::
              var x := f.queue[j]; f.intfs[x].output + OutputIn(f, step, x) == 0 || LookAt(step.looks, x).wait > 0
  {
    assert Reached(f, step.at, id);
    forall j | 0 <= j < step.at
      ensures var x := f.queue[j]; f.intfs[x].output + OutputIn(f, step, x) == 0 || LookAt(step.looks, x).wait > 0
    {
      assert Reached(f, step.at, f.queue[j]);
      assert !Ready(f.intfs[f.queue[j]], LookAt(step.looks, f.queue[j]));
    }
  }

  /** Who is on the write queue, and who is blocked. */
  lemma MembershipIs(f: Family, step: Step, id: Id)
    requires Awake(f) && Enabled(f, step) && id in f.intfs
    ensures id in Next(f, step).intfs && Members(f, step, Next(f, step), id)
  {
    if step.Write? {
      if step.at == |f.queue| { PacedIs(f, step, id); } else { ServedIs(f, step, id); }
    } else if step.Drop? || step.InterfaceDown? {
      TakenIs(f, step, id);
    } else {
      OtherIs(f, step, id);
    }
  }

  predicate Members(f: Family, step: Step, g: Family, id: Id)
    requires id in f.intfs && id in g.intfs
  {
    && (id in g.queue <==>
          if Sends(f, step, id) then g.intfs[id].output > 0 || g.intfs[id].pending > 0
          else if step.Drop? && step.id == id then id in f.queue && step.left > 0
          else step != InterfaceDown(id) && (id in f.queue || step == Enqueue(id) || Wakes(f, step, id)))
    && (g.intfs[id].blocked <==>
          if Tries(f, step, id) then Outcome(step, id).Block?
          else f.intfs[id].blocked && !Wakes(f, step, id) && step != InterfaceDown(id) && step != RetryExpired(id))
  }

  lemma PacedIs(f: Family, step: Step, id: Id)
    requires Awake(f) && Enabled(f, step) && step.Write? && step.at == |f.queue| && id in f.intfs
    ensures Members(f, step, Paced(f, step.looks), id)
  {}

  lemma ServedIs(f: Family, step: Step, id: Id)
    requires Awake(f) && Enabled(f, step) && step.Write? && step.at < |f.queue| && id in f.intfs
    ensures Members(f, step, Served(f, step.looks, step.at), id)
  {
    ServedMembers(f, step.looks, step.at, id);
    ServedBalances(f, step, id);
  }

  lemma TakenIs(f: Family, step: Step, id: Id)
    requires Awake(f) && Enabled(f, step) && (step.Drop? || step.InterfaceDown?) && id in f.intfs
    ensures Members(f, step, Next(f, step), id)
  {
    LeftIs(f.queue, step.id);
  }

  lemma OtherIs(f: Family, step: Step, id: Id)
    requires Awake(f) && Enabled(f, step) && !step.Write? && !step.Drop? && !step.InterfaceDown? && id in f.intfs
    ensures id in Next(f, step).intfs && Members(f, step, Next(f, step), id)
  {}

  lemma ServedMembers(f: Family, looks: map<Id, Look>, at: nat, id: Id)
    requires Awake(f) && at < |f.queue| && id in f.intfs
    ensures var g := Served(f, looks, at);
            id in g.queue <==>
              if f.queue[at] == id then g.intfs[id].output > 0 || g.intfs[id].pending > 0 else id in f.queue
  {
    RestIs(f.queue, at, id);
  }

  lemma RestIs(q: seq<Id>, at: nat, id: Id)
    requires at < |q| && forall i, j | 0 <= i < j < |q| :: q[i] != q[j]
    ensures id in q[..at] + q[at + 1..] <==> id in q && id != q[at]
  {
    assert q == q[..at] + [q[at]] + q[at + 1..];
  }

  /** When the writer is scheduled, and when its pacing timer is armed. */
  lemma WriterIs(f: Family, step: Step)
    requires Awake(f) && Enabled(f, step)
    ensures var g := Next(f, step);
            && (!step.Write? ==>
                  (g.scheduled <==> f.scheduled || step.Enqueue? || step.PacingExpired?
                                    || exists id :: id in f.intfs && Wakes(f, step, id))
                  && (g.pacing <==> f.pacing && !step.PacingExpired?))
            && (step.Write? && step.at < |f.queue| ==> !g.pacing && (HasWork(g) ==> g.scheduled))
            && (step.Write? && step.at == |f.queue| ==>
                  (g.pacing <==> f.pacing || exists id ::
                     id in f.queue && g.intfs[id].output > 0 && LookAt(step.looks, id).wait > 0))
  {
    if step.Write? && step.at == |f.queue| {
      forall id | id in f.queue ensures Reached(f, step.at, id) {
        var j :| 0 <= j < |f.queue| && f.queue[j] == id;
      }
    } else if step.Defer? || step.Resume? || step.RetryExpired? {
      assert Wakes(f, step, step.id) ==> exists id :: id in f.intfs && Wakes(f, step, id);
    }
  }

  // ----- nothing queued is forgotten -----

  /** Whoever has output is on the write queue. */
  ghost predicate OutputQueued(f: Family) {
    forall id :: id in f.intfs && f.intfs[id].output > 0 ==> id in f.queue
  }

  lemma StepKeepsQueued(f: Family, step: Step)
    requires Awake(f) && OutputQueued(f) && Enabled(f, step)
    ensures OutputQueued(Next(f, step))
  {
    var g := Next(f, step);
    forall id | id in g.intfs && g.intfs[id].output > 0 ensures id in g.queue {
      if id in f.intfs {
        StepBalances(f, step, id);
        MembershipIs(f, step, id);
        if Tries(f, step, id) { assert id in f.queue; }
      }
    }
  }

  /** Over every run: as long as any interface has a packet to send, the writer is
      scheduled or the pacing timer armed. */
  lemma {:induction false} OutputIsNeverForgotten(f: Family, steps: seq<Step>, id: Id)
    requires Awake(f) && OutputQueued(f) && IsRun(f, steps)
    ensures var g := After(f, steps);
            id in g.intfs && g.intfs[id].output > 0 ==> id in g.queue && (g.scheduled || g.pacing)
    decreases |steps|
  {
    StepOrDone(f, steps);
    if steps != [] {
      OutputIsNeverForgotten(Next(f, steps[0]), steps[1..], id);
    } else if id in f.intfs && f.intfs[id].output > 0 {
      assert Sendable(f.intfs[id]) && HasWork(f);
    }
  }

  lemma StepOrDone(f: Family, steps: seq<Step>)
    requires Awake(f) && OutputQueued(f) && IsRun(f, steps)
    ensures steps != [] ==> Awake(Next(f, steps[0])) && OutputQueued(Next(f, steps[0])) && IsRun(Next(f, steps[0]), steps[1..])
  {
    if steps != [] {
      StepKeepsAwake(f, steps[0]);
      StepKeepsQueued(f, steps[0]);
    }
  }

  /** The packets that come in, and those that leave, on a run. */
  ghost function AllIn(f: Family, steps: seq<Step>, id: Id): nat
    requires Awake(f) && IsRun(f, steps)
    decreases |steps|
  {
    if steps == [] then 0
    else
      StepKeepsAwake(f, steps[0]);
      (if id in f.intfs then OutputIn(f, steps[0], id) else 0) + AllIn(Next(f, steps[0]), steps[1..], id)
  }

  ghost function AllOut(f: Family, steps: seq<Step>, id: Id): nat
    requires Awake(f) && IsRun(f, steps)
    decreases |steps|
  {
    if steps == [] then 0
    else
      StepKeepsAwake(f, steps[0]);
      (if id in f.intfs then OutputOut(f, steps[0], id) else 0) + AllOut(Next(f, steps[0]), steps[1..], id)
  }

  /** Over every run what came in equals what left and what is still queued. */
  lemma {:induction false} RunBalances(f: Family, steps: seq<Step>, id: Id)
    requires Awake(f) && IsRun(f, steps) && id in f.intfs
    ensures id in After(f, steps).intfs
    ensures After(f, steps).intfs[id].output + AllOut(f, steps, id) == f.intfs[id].output + AllIn(f, steps, id)
    decreases |steps|
  {
    if steps != [] {
      StepKeepsAwake(f, steps[0]);
      StepBalances(f, steps[0], id);
      RunBalances(Next(f, steps[0]), steps[1..], id);
    }
  }
}
