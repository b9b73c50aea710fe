/**
 The fixed-point pacing bucket of an interface. A millisecond earns
 bandwidth * percent units, a packet costs 800 units per byte.
 */
module Pacing {
  import opened Common

  const BANDWIDTH_DEFAULT: nat := 100000
  const BYTE_COST: nat := 800
  const UINT16_MAX: nat := 0xffff
  const UINT32_MAX: nat := 0xffff_ffff
  const UINT64_MAX: nat := 0xffff_ffff_ffff_ffff

  datatype Link = Link(bandwidth: nat, current: nat, percent: nat)

  datatype Bucket = Bucket(initialized: bool, last: nat, rate: nat, credit: nat)

  /** `eigrp_packet_pacing_rate`: a missing bandwidth or share has a default. */
  function Rate(link: Link): (r: nat)
    ensures r > 0
    ensures link.percent != 0 && link.bandwidth != 0 ==> r == link.bandwidth * link.percent
    ensures link.percent != 0 && link.bandwidth == 0 && link.current != 0 ==> r == link.current * link.percent
    ensures link.percent != 0 && link.bandwidth == 0 && link.current == 0 ==> r == 100000 * link.percent
    ensures link.percent == 0 && link.bandwidth != 0 ==> r == 50 * link.bandwidth
    ensures link.percent == 0 && link.bandwidth == 0 && link.current != 0 ==> r == 50 * link.current
    ensures link.percent == 0 && link.bandwidth == 0 && link.current == 0 ==> r == 5000000
  {
    var bandwidth := if link.bandwidth != 0 then link.bandwidth
                     else if link.current != 0 then link.current else BANDWIDTH_DEFAULT;
    var percent := if link.percent != 0 then link.percent else 50;
    assert bandwidth * percent >= 1 * 1;
    bandwidth * percent
  }

  function Max(a: nat, b: nat): nat { if a < b then b else a }
  function Min(a: nat, b: nat): nat { if a < b then a else b }

  function Cost(length: nat): nat { length * BYTE_COST }

  function CeilDiv(x: nat, d: nat): nat
    requires d > 0
  {
    (x + d - 1) / d
  }

  lemma CeilDivIs(x: nat, d: nat, q: nat)
    requires d > 0
    requires x <= q * d < x + d
    ensures CeilDiv(x, d) == q
  {
    var c := CeilDiv(x, d);
    assert c * d <= x + d - 1 < (c + 1) * d;
    ProductGrows(c + 1, q, d);
    ProductGrows(q + 1, c, d);
  }

  lemma CeilDivBounds(x: nat, d: nat)
    requires d > 0
    ensures x <= CeilDiv(x, d) * d < x + d
  {
    var c := CeilDiv(x, d);
    assert c * d <= x + d - 1 < (c + 1) * d;
  }

  /** The textbook refill: credit grows with time up to the capacity. */
  function Refilled(credit: nat, elapsed: nat, rate: nat, capacity: nat): nat {
    Min(credit + elapsed * rate, capacity)
  }

  /** The bucket after looking at a packet of this cost. */
  function Looked(b: Bucket, rate: nat, cost: nat, now: nat): Bucket {
    var capacity := Max(rate, cost);
    if !b.initialized || b.rate != rate || now < b.last then Bucket(true, now, rate, capacity)
    else b.(last := now, credit := Refilled(b.credit, now - b.last, rate, capacity))
  }

  function Wait(b: Bucket, rate: nat, cost: nat): nat
    requires rate > 0
  {
    if b.credit >= cost then 0 else CeilDiv(cost - b.credit, rate)
  }

  /** `eigrp_packet_pacing_charge` */
  function Charged(b: Bucket, cost: nat): Bucket {
    if !b.initialized then b else b.(credit := if b.credit >= cost then b.credit - cost else 0)
  }

  // ----- exact delays -----

  lemma StillShort(needed: nat, rate: nat, e: nat)
    requires rate > 0 && e < CeilDiv(needed, rate)
    ensures e * rate < needed
    ensures CeilDiv(needed - e * rate, rate) == CeilDiv(needed, rate) - e
  {
    var d := CeilDiv(needed, rate);
    CeilDivBounds(needed, rate);
    ProductGrows(e, d - 1, rate);
    assert (d - 1) * rate == d * rate - rate;
    assert (d - e) * rate == d * rate - e * rate;
    CeilDivIs(needed - e * rate, rate, d - e);
  }

  /** Time earns credit one for one until the packet can go. */
  lemma PollOnce(b: Bucket, rate: nat, cost: nat, e: nat)
    requires rate > 0 && b.initialized && b.rate == rate
    requires b.credit <= Max(rate, cost)
    requires e <= Wait(b, rate, cost)
    ensures Wait(Looked(b, rate, cost, b.last + e), rate, cost) == Wait(b, rate, cost) - e
    ensures Looked(b, rate, cost, b.last + e).credit <= Max(rate, cost)
  {
    var d := Wait(b, rate, cost);
    if d > 0 {
      CeilDivBounds(cost - b.credit, rate);
      if e < d {
        StillShort(cost - b.credit, rate, e);
      }
    }
  }

  function Polled(b: Bucket, rate: nat, cost: nat, waits: seq<nat>): Bucket
    decreases |waits|
  {
    if waits == [] then b else Polled(Looked(b, rate, cost, b.last + waits[0]), rate, cost, waits[1..])
  }

  function Sum(s: seq<nat>): nat
    decreases |s|
  {
    if s == [] then 0 else s[0] + Sum(s[1..])
  }

  /** However often the writer polls for the same packet within the delay it was
      given, the delay shrinks by exactly the time that passed. */
  lemma {:induction false} PollsAreExact(b: Bucket, rate: nat, cost: nat, now: nat, waits: seq<nat>)
    requires rate > 0
    requires Sum(waits) <= Wait(Looked(b, rate, cost, now), rate, cost)
    ensures var first := Looked(b, rate, cost, now);
            var last := Polled(first, rate, cost, waits);
            && last.last == now + Sum(waits)
            && Wait(last, rate, cost) == Wait(first, rate, cost) - Sum(waits)
    decreases |waits|
  {
    var first := Looked(b, rate, cost, now);
    if waits != [] {
      PollOnce(first, rate, cost, waits[0]);
      PollsAreExact(first, rate, cost, now + waits[0], waits[1..]);
    }
  }

  /** A packet that finds no usable bucket goes at once, and none waits longer than
      its whole cost takes to earn. */
  lemma WaitIsBounded(b: Bucket, rate: nat, cost: nat, now: nat)
    requires rate > 0
    ensures var wait := Wait(Looked(b, rate, cost, now), rate, cost);
            && (!b.initialized || b.rate != rate || now < b.last ==> wait == 0)
            && wait <= CeilDiv(cost, rate)
  {
    var looked := Looked(b, rate, cost, now);
    if looked.credit < cost {
      CeilDivBounds(cost, rate);
      CeilDivBounds(cost - looked.credit, rate);
      var c, d := CeilDiv(cost, rate), CeilDiv(cost - looked.credit, rate);
      ProductGrows(c + 1, d, rate);
    }
  }

  // ----- rate bound -----

  /** What the writer does to one interface's budget: look at a packet and, when
      no wait is due, attempt it (`sent` false: too short, dropped uncharged);
      or send a Hello, which is charged but never waits. */
  datatype Op =
    | Gated(length: nat, now: nat, sent: bool)
    | Hello(length: nat)

  function Step(b: Bucket, rate: nat, op: Op): (r: (Bucket, nat))
    requires rate > 0
  {
    match op
    case Hello(length) => (Charged(b, Cost(length)), 0)
    case Gated(length, now, sent) =>
      if length == 0 then (if sent then Charged(b, 0) else b, 0)
      else
        var looked := Looked(b, rate, Cost(length), now);
        if Wait(looked, rate, Cost(length)) > 0 || !sent then (looked, 0)
        else (Charged(looked, Cost(length)), length)
  }

  /** Bytes of gated packets sent by a schedule. */
  function SentBytes(b: Bucket, rate: nat, ops: seq<Op>): nat
    requires rate > 0
    decreases |ops|
  {
    if ops == [] then 0
    else Step(b, rate, ops[0]).1 + SentBytes(Step(b, rate, ops[0]).0, rate, ops[1..])
  }

  /** All looks fall in [from, to] in clock order, at packets up to `largest`. */
  predicate Within(from: nat, to: nat, largest: nat, ops: seq<Op>)
    decreases |ops|
  {
    && from <= to
    && (ops != [] ==>
          match ops[0]
          case Hello(_) => Within(from, to, largest, ops[1..])
          case Gated(length, now, _) =>
            length <= largest && from <= now <= to && Within(now, to, largest, ops[1..]))
  }

  lemma ZeroWait(b: Bucket, rate: nat, cost: nat)
    requires rate > 0
    ensures Wait(b, rate, cost) == 0 <==> b.credit >= cost
  {
    if b.credit < cost {
      CeilDivBounds(cost - b.credit, rate);
      ProductGrows(1, CeilDiv(cost - b.credit, rate), rate);
    }
  }

  /** A started bucket pays for what it sends out of its credit and its earnings. */
  lemma StepPays(b: Bucket, rate: nat, largest: nat, op: Op)
    requires rate > 0 && b.initialized && b.rate == rate
    requires op.Gated? ==> b.last <= op.now && op.length <= largest
    requires b.credit <= Max(rate, Cost(largest))
    ensures var (b', bytes) := Step(b, rate, op);
            && b'.initialized && b'.rate == rate
            && b'.last == (if op.Gated? && op.length > 0 then op.now else b.last)
            && b'.credit <= Max(rate, Cost(largest))
            && Cost(bytes) + b'.credit <= b.credit + (b'.last - b.last) * rate
  {
    match op
    case Hello(_) =>
    case Gated(length, now, sent) =>
      ZeroWait(Looked(b, rate, Cost(length), now), rate, Cost(length));
  }

  /** ... and loses no credit but what a full bucket cannot hold: a look brings in
      what was earned up to the capacity, a send takes its cost and no more. */
  lemma NothingWasted(b: Bucket, rate: nat, length: nat, now: nat, sent: bool)
    requires rate > 0 && b.initialized && b.rate == rate && b.last <= now && length > 0
    ensures var (b', bytes) := Step(b, rate, Gated(length, now, sent));
            && 800 * bytes + b'.credit == Min(b.credit + (now - b.last) * rate, Max(rate, 800 * length))
            && (bytes > 0 ==> bytes == length && sent)
            && (sent && b.credit + (now - b.last) * rate >= 800 * length ==> bytes == length)
    ensures Step(b, rate, Hello(length)) == (b.(credit := if b.credit < 800 * length then 0 else b.credit - 800 * length), 0)
  {
    ZeroWait(Looked(b, rate, Cost(length), now), rate, Cost(length));
  }

  lemma {:induction false} StartedPays(b: Bucket, rate: nat, from: nat, to: nat, largest: nat, ops: seq<Op>)
    requires rate > 0 && b.initialized && b.rate == rate && b.last <= from
    requires b.credit <= Max(rate, Cost(largest))
    requires Within(from, to, largest, ops)
    ensures Cost(SentBytes(b, rate, ops)) <= b.credit + (to - b.last) * rate
    decreases |ops|
  {
    if ops != [] {
      var op := ops[0];
      StepPays(b, rate, largest, op);
      var (b', bytes) := Step(b, rate, op);
      var from' := if op.Gated? then op.now else from;
      StartedPays(b', rate, from', to, largest, ops[1..]);
      CostAdds(bytes, SentBytes(b', rate, ops[1..]));
      SplitTime(b.last, b'.last, to, rate);
    }
  }

  lemma SplitTime(a: nat, b: nat, c: nat, rate: nat)
    requires a <= b <= c
    ensures (c - a) * rate == (b - a) * rate + (c - b) * rate
  {
  }

  lemma CostAdds(a: nat, b: nat)
    ensures Cost(a + b) == Cost(a) + Cost(b)
  {
  }

  /** A window that starts with a look at a packet. */
  lemma WindowFromLook(b: Bucket, rate: nat, from: nat, to: nat, largest: nat, ops: seq<Op>)
    requires rate > 0 && Within(from, to, largest, ops)
    requires ops != [] && ops[0].Gated? && ops[0].length > 0
    ensures Cost(SentBytes(b, rate, ops)) <= (to - from) * rate + Max(rate, Cost(largest))
  {
    var op := ops[0];
    var (b', bytes) := Step(b, rate, op);
    FirstLook(b, rate, largest, op);
    StartedPays(b', rate, op.now, to, largest, ops[1..]);
    CostAdds(bytes, SentBytes(b', rate, ops[1..]));
    ProductGrows(to - op.now, to - from, rate);
  }

  /** The bytes of gated packets sent in any window of T milliseconds cost at
      most T milliseconds of bandwidth plus one millisecond or one packet,
      whatever the bucket held before and however many Hellos interleave. */
  lemma {:induction false} WindowBound(b: Bucket, rate: nat, from: nat, to: nat, largest: nat, ops: seq<Op>)
    requires rate > 0 && Within(from, to, largest, ops)
    ensures Cost(SentBytes(b, rate, ops)) <= (to - from) * rate + Max(rate, Cost(largest))
    decreases |ops|
  {
    if ops != [] {
      var op := ops[0];
      if op.Gated? && op.length > 0 {
        WindowFromLook(b, rate, from, to, largest, ops);
      } else {
        var start := if op.Gated? then op.now else from;
        WindowBound(Step(b, rate, op).0, rate, start, to, largest, ops[1..]);
        ProductGrows(to - start, to - from, rate);
      }
    }
  }

  /** The first look of a window finds at most one capacity of credit. */
  lemma FirstLook(b: Bucket, rate: nat, largest: nat, op: Op)
    requires rate > 0 && op.Gated? && 0 < op.length <= largest
    ensures var (b', bytes) := Step(b, rate, op);
            && b'.initialized && b'.rate == rate && b'.last == op.now
            && Cost(bytes) + b'.credit <= Max(rate, Cost(largest))
  {
    ZeroWait(Looked(b, rate, Cost(op.length), op.now), rate, Cost(op.length));
  }

  // ----- in place -----

  /** The pacing fields of `eigrp_intf_t`. */
  class Interface {
    var link: Link
    var initialized: bool
    var last: nat
    var rate: nat
    var credit: nat

    function View(): Bucket
      reads this
    {
      Bucket(initialized, last, rate, credit)
    }

    /** Clock, lengths and configured rates fit their machine types. */
    predicate Fits()
      reads this
    {
      Rate(link) <= UINT64_MAX / 4 && credit <= Max(rate, Cost(UINT16_MAX)) && rate <= UINT64_MAX / 4
    }

    /** Bring the credit up to date for a packet of this cost. */
    method Look(cost: nat, now: nat)
      requires Fits() && cost <= Cost(UINT16_MAX) && now <= UINT64_MAX
      modifies this`initialized, this`last, this`rate, this`credit
      ensures Fits()
      ensures View() == Looked(old(View()), Rate(link), cost, now)
    {
      var newRate := Rate(link);
      var capacity := if newRate > cost then newRate else cost;
      if !initialized || rate != newRate || now < last {
        initialized := true;
        last := now;
        rate := newRate;
        credit := capacity;
      } else {
        var elapsed := now - last;
        last := now;
        credit := Refill(credit, elapsed, rate, capacity);
      }
    }

    /** `eigrp_packet_pacing_delay_msec`; the sums and products it takes are
        asserted to stay in 64 bits, and the 32-bit cap is never reached. */
    method Delay(length: nat, now: nat) returns (wait: nat)
      requires Fits() && length <= UINT16_MAX && now <= UINT64_MAX
      modifies this`initialized, this`last, this`rate, this`credit
      ensures Fits()
      ensures length == 0 ==> View() == old(View()) && wait == 0
      ensures length > 0 ==> View() == Looked(old(View()), Rate(link), Cost(length), now)
      ensures length > 0 ==> wait == Wait(View(), Rate(link), Cost(length)) <= UINT32_MAX
    {
      if length == 0 {
        return 0;
      }
      var cost := length * BYTE_COST;
      Look(cost, now);
      if credit >= cost {
        return 0;
      }
      wait := WaitFor(cost - credit, Rate(link));
    }

    method Charge(length: nat)
      requires Fits() && length <= UINT16_MAX
      modifies this`credit
      ensures Fits()
      ensures View() == Charged(old(View()), Cost(length))
    {
      if initialized {
        credit := if credit >= length * BYTE_COST then credit - length * BYTE_COST else 0;
      }
    }

    /** The writer's look at a packet that is not a Hello, and the send when no
        wait is due: what is sent is paid for out of one capacity, or out of the
        credit and what was earned since the last look. */
    method Attempt(length: nat, now: nat) returns (wait: nat)
      requires Fits() && 0 < length <= UINT16_MAX && now <= UINT64_MAX
      modifies this`initialized, this`last, this`rate, this`credit
      ensures Fits()
      ensures (View(), if wait == 0 then length else 0) == Step(old(View()), Rate(link), Gated(length, now, true))
      ensures wait == 0 ==> Cost(length) + credit <= Max(Rate(link), Cost(length))
      ensures wait == 0 && old(initialized && rate == Rate(link) && last <= now && credit <= Max(rate, Cost(length))) ==>
                Cost(length) + credit <= old(credit) + (now - old(last)) * Rate(link)
    {
      FirstLook(View(), Rate(link), length, Gated(length, now, true));
      if initialized && rate == Rate(link) && last <= now && credit <= Max(rate, Cost(length)) {
        StepPays(View(), Rate(link), length, Gated(length, now, true));
      }
      wait := Delay(length, now);
      if wait == 0 {
        Charge(length);
      }
    }
  }

  /** The refill that tests for saturation before multiplying: it equals the
      textbook form and never leaves 64 bits. */
  method Refill(credit: nat, elapsed: nat, rate: nat, capacity: nat) returns (r: nat)
    requires 0 < rate <= UINT64_MAX / 4 && capacity <= Max(rate, Cost(UINT16_MAX))
    requires credit <= Max(rate, Cost(UINT16_MAX))
    ensures r == Refilled(credit, elapsed, rate, capacity)
  {
    CeilDivBounds(capacity, rate);
    assert capacity + rate - 1 <= UINT64_MAX;
    var full := (capacity + rate - 1) / rate;
    ProductGrows(full, elapsed, rate);
    if elapsed >= full {
      r := capacity;
    } else {
      ProductGrows(elapsed, full, rate);
      assert credit + elapsed * rate <= UINT64_MAX;
      var grown := credit + elapsed * rate;
      r := if grown < capacity then grown else capacity;
    }
    if r > capacity {
      r := capacity;
    }
  }

  method WaitFor(needed: nat, rate: nat) returns (wait: nat)
    requires 0 < rate <= UINT64_MAX / 4 && needed <= Cost(UINT16_MAX)
    ensures wait == CeilDiv(needed, rate) <= UINT32_MAX
  {
    assert needed + rate - 1 <= UINT64_MAX;
    wait := (needed + rate - 1) / rate;
    CeilDivBounds(needed, rate);
    if wait > 0 { ProductGrows(1, rate, wait - 1); }
    wait := Min(wait, UINT32_MAX);
  }

  /** Every configurable link satisfies the width that `Fits` asks of the rate:
      bandwidths are 32-bit and the share is at most 999999 percent. */
  lemma ConfiguredRateFits(link: Link)
    requires link.bandwidth <= UINT32_MAX && link.current <= UINT32_MAX && link.percent <= 999999
    ensures Rate(link) <= UINT64_MAX / 4
  {
    var bandwidth := if link.bandwidth != 0 then link.bandwidth
                     else if link.current != 0 then link.current else BANDWIDTH_DEFAULT;
    var percent := if link.percent != 0 then link.percent else 50;
    ProductGrows(bandwidth, UINT32_MAX, percent);
  }
}
