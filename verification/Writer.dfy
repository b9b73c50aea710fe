/**
 The round-robin writer of an address family: a queue of interfaces with pending
 output, scanned for the first that need not wait.
 */
module Writer {
  import opened Common

  type Intf = nat

  const UINT32_MAX: nat := 0xffff_ffff

  /** What the scan finds at an interface after trying to admit its pending
      multicast: nothing to send, or a head packet and its pacing delay
      (0 for Hellos). */
  datatype Head = Nothing | Packet(wait: nat)

  /** One call sees these heads; afterwards the served interface has `more`. */
  datatype Call = Call(heads: map<Intf, Head>, more: bool)

  function HeadOf(call: Call, i: Intf): Head {
    if i in call.heads then call.heads[i] else Nothing
  }

  predicate Ready(call: Call, i: Intf) { HeadOf(call, i) == Packet(0) }

  predicate NoDuplicates(q: seq<Intf>) {
    forall i, j | 0 <= i < j < |q| :: q[i] != q[j]
  }

  /** Position of the interface served; the length when there is none. */
  function FirstReady(q: seq<Intf>, call: Call): (r: nat)
    ensures r <= |q|
    ensures r < |q| ==> Ready(call, q[r])
    ensures forall i | 0 <= i < r :: !Ready(call, q[i])
  {
    if q == [] then 0
    else if Ready(call, q[0]) then 0
    else 1 + FirstReady(q[1..], call)
  }

  function Removed(q: seq<Intf>, at: nat): seq<Intf>
    requires at < |q|
  {
    q[..at] + q[at + 1..]
  }

  /** The queue after a call: the served interface leaves or goes last. */
  function Written(q: seq<Intf>, call: Call): seq<Intf> {
    var at := FirstReady(q, call);
    if at == |q| then q
    else if call.more then Removed(q, at) + [q[at]]
    else Removed(q, at)
  }

  function Served(q: seq<Intf>, call: Call): Option<Intf> {
    var at := FirstReady(q, call);
    if at == |q| then None else Some(q[at])
  }

  // ----- fairness -----

  /** Between calls interfaces join at the tail or are torn down. */
  datatype Event =
    | Write(call: Call)
    | Join(i: Intf)
    | Leave(i: Intf)

  function Left(q: seq<Intf>, x: Intf): seq<Intf> {
    if q == [] then [] else if q[0] == x then q[1..] else [q[0]] + Left(q[1..], x)
  }

  /** `on_write_q` keeps an interface from being queued twice. */
  function Next(q: seq<Intf>, e: Event): seq<Intf> {
    match e
    case Write(call) => Written(q, call)
    case Join(i) => if i in q then q else q + [i]
    case Leave(i) => Left(q, i)
  }

  function Calls(es: seq<Event>): nat
    decreases |es|
  {
    if es == [] then 0 else (if es[0].Write? then 1 else 0) + Calls(es[1..])
  }

  predicate ServesNow(q: seq<Intf>, e: Event, x: Intf) {
    e.Write? && Served(q, e.call) == Some(x)
  }

  predicate Serves(q: seq<Intf>, es: seq<Event>, x: Intf)
    decreases |es|
  {
    es != [] && (ServesNow(q, es[0], x) || Serves(Next(q, es[0]), es[1..], x))
  }

  /** The calls up to and including the first that serves `x`. */
  function CallsUntil(q: seq<Intf>, es: seq<Event>, x: Intf): nat
    decreases |es|
  {
    if es == [] then 0
    else if ServesNow(q, es[0], x) then 1
    else (if es[0].Write? then 1 else 0) + CallsUntil(Next(q, es[0]), es[1..], x)
  }

  /** The head of `x` is ready whenever the writer runs, and `x` stays. */
  predicate StaysReady(es: seq<Event>, x: Intf) {
    forall k | 0 <= k < |es| ::
      (es[k].Write? ==> Ready(es[k].call, x)) && es[k] != Leave(x)
  }

  lemma {:induction false} LeftIs(q: seq<Intf>, y: Intf) returns (k: nat)
    ensures k <= |q|
    ensures k == |q| ==> y !in q && Left(q, y) == q
    ensures k < |q| ==> q[k] == y && Left(q, y) == Removed(q, k)
  {
    if q == [] || q[0] == y {
      k := 0;
    } else {
      var rest := q[1..];
      assert q == [q[0]] + rest;
      var j := LeftIs(rest, y);
      if j < |rest| {
        assert Removed(q, j + 1) == [q[0]] + Removed(rest, j);
      }
      k := j + 1;
    }
  }

  /** What is removed is gone; what stood behind it moves up by one. */
  lemma RemovedIs(q: seq<Intf>, k: nat)
    requires NoDuplicates(q) && k < |q|
    ensures NoDuplicates(Removed(q, k)) && NoDuplicates(Removed(q, k) + [q[k]])
    ensures forall i | 0 <= i < |q| && i != k :: Removed(q, k)[if i < k then i else i - 1] == q[i]
  {
    var r := Removed(q, k);
    assert forall i | 0 <= i < |r| :: r[i] == q[if i < k then i else i + 1];
  }

  /** A call serves the first interface whose head need not wait, if there is one.
      The others keep their order; the one served goes last or, with nothing more
      to send, leaves. */
  lemma CallIs(q: seq<Intf>, call: Call) returns (k: nat)
    requires NoDuplicates(q)
    ensures k <= |q| && forall i | 0 <= i < k :: q[i] !in call.heads || call.heads[q[i]] != Packet(0)
    ensures k == |q| ==> Served(q, call) == None && Next(q, Write(call)) == q
    ensures var q' := Next(q, Write(call));
            k < |q| ==>
              && Served(q, call) == Some(q[k]) && q[k] in call.heads && call.heads[q[k]] == Packet(0)
              && |q'| == (if call.more then |q| else |q| - 1)
              && (forall i | 0 <= i < k :: q'[i] == q[i]) && (forall i | k < i < |q| :: q'[i - 1] == q[i])
              && (call.more ==> q'[|q| - 1] == q[k])
  {
    k := FirstReady(q, call);
    if k < |q| { RemovedIs(q, k); }
  }

  /** Joining adds at the tail, once; leaving takes out and keeps the order. */
  lemma MembershipIs(q: seq<Intf>, x: Intf)
    requires NoDuplicates(q)
    ensures if x in q then Next(q, Join(x)) == q else Next(q, Join(x)) == q + [x]
    ensures x !in Next(q, Leave(x)) && (x !in q ==> Next(q, Leave(x)) == q)
    ensures forall i | 0 <= i < |q| && q[i] == x :: Next(q, Leave(x)) == q[..i] + q[i + 1..]
  {
    var k := LeftIs(q, x);
    if k < |q| { RemovedIs(q, k); }
  }

  /** A call that serves somebody else moves `x` up by one; other events never
      move it back. */
  lemma PositionFalls(q: seq<Intf>, e: Event, x: Intf, at: nat) returns (at': nat)
    requires NoDuplicates(q) && at < |q| && q[at] == x
    requires e.Write? ==> Ready(e.call, x)
    requires e != Leave(x)
    ensures NoDuplicates(Next(q, e))
    ensures !ServesNow(q, e, x) ==> at' < |Next(q, e)| && Next(q, e)[at'] == x
    ensures !ServesNow(q, e, x) ==> at' <= at - (if e.Write? then 1 else 0)
  {
    match e
    case Write(call) =>
      var k := FirstReady(q, call);
      assert k <= at;
      RemovedIs(q, k);
      at' := if k < at then at - 1 else at;
    case Join(_) =>
      at' := at;
    case Leave(y) =>
      var k := LeftIs(q, y);
      if k < |q| { RemovedIs(q, k); }
      at' := if k < at then at - 1 else at;
  }

  /** An interface at position p whose head stays ready is served within p + 1
      calls, whatever others send, join or leave. */
  lemma {:induction false} ServedWithin(q: seq<Intf>, es: seq<Event>, x: Intf, at: nat)
    requires NoDuplicates(q) && at < |q| && q[at] == x
    requires StaysReady(es, x)
    ensures Calls(es) >= at + 1 ==> Serves(q, es, x)
    ensures CallsUntil(q, es, x) <= at + 1
    decreases |es|
  {
    if es != [] && !ServesNow(q, es[0], x) {
      assert es[0].Write? ==> Ready(es[0].call, x);
      var at' := PositionFalls(q, es[0], x, at);
      forall k | 0 <= k < |es| - 1
        ensures (es[1..][k].Write? ==> Ready(es[1..][k].call, x)) && es[1..][k] != Leave(x)
      {
        assert es[1..][k] == es[k + 1];
      }
      ServedWithin(Next(q, es[0]), es[1..], x, at');
    }
  }

  // ----- in place -----

  /** The least positive delay among the heads; None when nothing waits. */
  ghost predicate LeastWait(q: seq<Intf>, call: Call, least: nat) {
    && (exists i | 0 <= i < |q| :: HeadOf(call, q[i]) == Packet(least))
    && (forall i | 0 <= i < |q| && HeadOf(call, q[i]).Packet? :: least <= HeadOf(call, q[i]).wait)
  }

  class FamilyWriter {
    var queue: seq<Intf>
    var pacingTimer: Option<nat>
    var scheduled: bool

    /** `eigrp_packet_write`. `busy` holds the interfaces with sendable output
        once the served packet is gone. */
    method PacketWrite(call: Call, busy: set<Intf>) returns (served: Option<Intf>)
      requires NoDuplicates(queue)
      requires forall i | 0 <= i < |queue| && HeadOf(call, queue[i]).Packet? :: HeadOf(call, queue[i]).wait < UINT32_MAX
      modifies this
      ensures NoDuplicates(queue)
      ensures queue == Written(old(queue), call)
      ensures served == Served(old(queue), call)
      ensures served.Some? ==> pacingTimer == None
      ensures served.Some? ==> (scheduled <==> old(scheduled) || exists i | 0 <= i < |queue| :: queue[i] in busy)
      ensures served.None? ==> scheduled == old(scheduled)
      ensures served.None? && (exists i | 0 <= i < |queue| :: HeadOf(call, queue[i]).Packet?) ==>
                pacingTimer.Some? && 0 < pacingTimer.value && LeastWait(queue, call, pacingTimer.value)
      ensures served.None? && (forall i | 0 <= i < |queue| :: HeadOf(call, queue[i]).Nothing?) ==>
                pacingTimer == old(pacingTimer)
    {
      var at, earliest := Scan(queue, call);
      if at == |queue| {
        if earliest != UINT32_MAX {
          pacingTimer := Some(earliest);
        }
        return None;
      }
      pacingTimer := None;
      served := Some(queue[at]);
      if !call.more {
        queue := Removed(queue, at);
      } else if at != |queue| - 1 {
        queue := Removed(queue, at) + [queue[at]];
      } else {
        assert queue == Removed(queue, at) + [queue[at]];
      }
      var some := AnyOf(queue, busy);
      scheduled := scheduled || some;
    }
  }

  /** The scan: first interface that need not wait, else the least delay. */
  method Scan(q: seq<Intf>, call: Call) returns (at: nat, earliest: nat)
    ensures at == FirstReady(q, call)
    ensures at == |q| ==>
              forall i | 0 <= i < |q| && HeadOf(call, q[i]).Packet? :: earliest <= HeadOf(call, q[i]).wait
    ensures at == |q| && earliest != UINT32_MAX ==> 0 < earliest && LeastWait(q, call, earliest)
  {
    at, earliest := 0, UINT32_MAX;
    while at < |q|
      invariant at <= |q|
      invariant FirstReady(q, call) == at + FirstReady(q[at..], call)
      invariant 0 < earliest
      invariant forall i | 0 <= i < at && HeadOf(call, q[i]).Packet? :: earliest <= HeadOf(call, q[i]).wait
      invariant earliest != UINT32_MAX ==> exists i | 0 <= i < at :: HeadOf(call, q[i]) == Packet(earliest)
    {
      assert q[at..][0] == q[at] && q[at..][1..] == q[at + 1..];
      var head := HeadOf(call, q[at]);
      if head == Packet(0) {
        return;
      }
      if head.Packet? && head.wait < earliest {
        earliest := head.wait;
      }
      at := at + 1;
    }
  }

  method AnyOf(q: seq<Intf>, busy: set<Intf>) returns (some: bool)
    ensures some <==> exists i | 0 <= i < |q| :: q[i] in busy
  {
    for k := 0 to |q|
      invariant forall i | 0 <= i < k :: q[i] !in busy
    {
      if q[k] in busy {
        return true;
      }
    }
    return false;
  }
}
