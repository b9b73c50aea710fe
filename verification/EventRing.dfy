/** The event log: a ring of the newest events that can be resized. */
module EventRing {
  import opened Common
  import Serial

  type Event = nat

  const TWO31: nat := 0x8000_0000

  // ----- what the log keeps -----

  /** The last `k` elements, or all. */
  function Newest(s: seq<Event>, k: nat): (r: seq<Event>)
    ensures |r| == if k < |s| then k else |s|
  {
    if k < |s| then s[|s| - k..] else s
  }

  /** `kept` runs from oldest to newest. */
  datatype Log = Log(capacity: nat, kept: seq<Event>, written: nat, overwritten: nat)

  datatype Op = Add(event: Event) | Resize(capacity: nat) | Clear

  function Next(log: Log, op: Op): Log {
    match op
    case Add(e) =>
      if log.capacity == 0 then log
      else Log(log.capacity, Newest(log.kept + [e], log.capacity), log.written + 1,
               log.overwritten + (if |log.kept| == log.capacity then 1 else 0))
    case Resize(c) =>
      Log(c, Newest(log.kept, c), log.written, log.overwritten + (|log.kept| - |Newest(log.kept, c)|))
    case Clear => Log(log.capacity, [], 0, 0)
  }

  function After(log: Log, ops: seq<Op>): Log
    decreases |ops|
  {
    if ops == [] then log else After(Next(log, ops[0]), ops[1..])
  }

  /** The events accepted since the last clear. */
  function Recorded(log: Log, so: seq<Event>, ops: seq<Op>): seq<Event>
    decreases |ops|
  {
    if ops == [] then so
    else Recorded(Next(log, ops[0]),
                  match ops[0]
                  case Add(e) => if log.capacity == 0 then so else so + [e]
                  case Resize(_) => so
                  case Clear => [],
                  ops[1..])
  }

  predicate IsSuffix(s: seq<Event>, t: seq<Event>) {
    |s| <= |t| && s == t[|t| - |s|..]
  }

  /** Conservation and recency over every run: what was written was overwritten
      or is kept, and what is kept is the newest part of what was recorded. */
  lemma {:induction false} RunConserves(log: Log, so: seq<Event>, ops: seq<Op>)
    requires log.written == log.overwritten + |log.kept| && |log.kept| <= log.capacity
    requires IsSuffix(log.kept, so) && |so| == log.written
    ensures var u := After(log, ops);
            && u.written == u.overwritten + |u.kept| && |u.kept| <= u.capacity
            && IsSuffix(u.kept, Recorded(log, so, ops)) && |Recorded(log, so, ops)| == u.written
    decreases |ops|
  {
    if ops != [] {
      var so' := match ops[0]
        case Add(e) => if log.capacity == 0 then so else so + [e]
        case Resize(_) => so
        case Clear => [];
      StepConserves(log, so, ops[0], so');
      RunConserves(Next(log, ops[0]), so', ops[1..]);
    }
  }

  lemma SuffixGrows(s: seq<Event>, t: seq<Event>, e: Event)
    requires IsSuffix(s, t)
    ensures IsSuffix(s + [e], t + [e])
  {}

  lemma NewestIsSuffix(s: seq<Event>, t: seq<Event>, k: nat)
    requires IsSuffix(s, t)
    ensures IsSuffix(Newest(s, k), t)
  {}

  lemma StepConserves(log: Log, so: seq<Event>, op: Op, so': seq<Event>)
    requires log.written == log.overwritten + |log.kept| && |log.kept| <= log.capacity
    requires IsSuffix(log.kept, so) && |so| == log.written
    requires so' == match op
                    case Add(e) => if log.capacity == 0 then so else so + [e]
                    case Resize(_) => so
                    case Clear => []
    ensures var u := Next(log, op);
            && u.written == u.overwritten + |u.kept| && |u.kept| <= u.capacity
            && IsSuffix(u.kept, so') && |so'| == u.written
  {
    match op
    case Add(e) =>
      SuffixGrows(log.kept, so, e);
      NewestIsSuffix(log.kept + [e], so + [e], log.capacity);
    case Resize(c) => NewestIsSuffix(log.kept, so, c);
    case Clear =>
  }

  /** While the capacity does not change, the log keeps exactly the newest
      `capacity` of all events recorded. */
  lemma {:induction false} KeepsNewest(log: Log, so: seq<Event>, ops: seq<Op>)
    requires log.kept == Newest(so, log.capacity)
    requires forall i | 0 <= i < |ops| :: !ops[i].Resize?
    ensures After(log, ops).kept == Newest(Recorded(log, so, ops), log.capacity)
    decreases |ops|
  {
    if ops != [] {
      var so' := match ops[0]
        case Add(e) => if log.capacity == 0 then so else so + [e]
        case Resize(_) => so
        case Clear => [];
      assert ops[0].Add? ==> Newest(Newest(so, log.capacity) + [ops[0].event], log.capacity)
                             == Newest(so + [ops[0].event], log.capacity);
      assert Next(log, ops[0]).kept == Newest(so', log.capacity);
      KeepsNewest(Next(log, ops[0]), so', ops[1..]);
    }
  }

  // ----- the ring -----

  /** Where the event `k` before the newest is. */
  function Slot(next: nat, capacity: nat, k: nat): (r: nat)
    requires next < capacity && k < capacity
    ensures r < capacity
  {
    if k < next then next - 1 - k else next + capacity - 1 - k
  }

  lemma Wraps(x: nat, capacity: nat)
    requires x <= capacity && capacity > 0
    ensures x % capacity == if x == capacity then 0 else x
  {
    if x == capacity {
      Serial.DivModIs(x, capacity, 1, 0);
    } else {
      Serial.DivModIs(x, capacity, 0, x);
    }
  }

  function Reversed(s: seq<Event>): (r: seq<Event>)
    ensures |r| == |s| && forall i | 0 <= i < |s| :: r[i] == s[|s| - 1 - i]
  {
    seq(|s|, i requires 0 <= i < |s| => s[|s| - 1 - i])
  }

  /** The ring holds `kept`, its newest event just before `next`. */
  ghost predicate RingHolds(ring: seq<Event>, next: nat, kept: seq<Event>) {
    && next < |ring| && |kept| <= |ring|
    && (forall k | 0 <= k < |kept| :: ring[Slot(next, |ring|, k)] == kept[|kept| - 1 - k])
  }

  lemma RingAdds(ring: seq<Event>, next: nat, kept: seq<Event>, e: Event)
    requires RingHolds(ring, next, kept)
    ensures RingHolds(ring[next := e], if next + 1 == |ring| then 0 else next + 1, Newest(kept + [e], |ring|))
  {
    var next', kept' := if next + 1 == |ring| then 0 else next + 1, Newest(kept + [e], |ring|);
    forall k | 0 <= k < |kept'|
      ensures ring[next := e][Slot(next', |ring|, k)] == kept'[|kept'| - 1 - k]
    {
      if k > 0 {
        assert Slot(next', |ring|, k) == Slot(next, |ring|, k - 1) != next;
        assert kept'[|kept'| - 1 - k] == kept[|kept| - k];
      }
    }
  }

  method Advance(next: nat, capacity: nat) returns (r: nat)
    requires next < capacity
    ensures r == if next + 1 == capacity then 0 else next + 1
  {
    Wraps(next + 1, capacity);
    r := (next + 1) % capacity;
  }

  class EventLog {
    var entries: array<Event>
    var next: nat
    var count: nat
    var written: nat
    var overwritten: nat
    ghost var kept: seq<Event>

    /** `eigrp_eventlog_init`; no entries are allocated for capacity 0. */
    constructor (capacity: nat)
      requires capacity < TWO31
      ensures Valid() && fresh(entries) && View() == Log(capacity, [], 0, 0)
    {
      entries := new Event[capacity](_ => 0);
      next, count, written, overwritten := 0, 0, 0, 0;
      kept := [];
    }

    ghost predicate Valid()
      reads this, entries
    {
      && entries.Length < TWO31
      && count == |kept| <= entries.Length
      && (if entries.Length == 0 then next == 0 else RingHolds(entries[..], next, kept))
    }

    ghost function View(): Log
      reads this
    {
      Log(entries.Length, kept, written, overwritten)
    }

    /** `eigrp_eventlog_recent_read`, the index computed in 32 bits. */
    method RecentRead(recent: nat) returns (event: Option<Event>)
      requires Valid()
      ensures event == if recent < count then Some(kept[count - 1 - recent]) else None
    {
      if recent >= count || entries.Length == 0 {
        return None;
      }
      var capacity := entries.Length;
      var sum := next + capacity - 1 - recent;
      assert 0 <= sum < 2 * TWO31;
      var index := sum % 0x1_0000_0000 % capacity;
      assert index == Slot(next, capacity, recent) by {
        if recent < next {
          assert sum == 1 * capacity + Slot(next, capacity, recent);
          Serial.DivModIs(sum, capacity, 1, Slot(next, capacity, recent));
        } else {
          Serial.DivModIs(sum, capacity, 0, Slot(next, capacity, recent));
        }
      }
      return Some(entries[index]);
    }

    /** `eigrp_eventlog_msg_add` */
    method MsgAdd(e: Event)
      requires Valid()
      modifies this, entries
      ensures Valid() && entries == old(entries)
      ensures View() == Next(old(View()), Add(e))
    {
      if entries.Length == 0 {
        return;
      }
      if count == entries.Length {
        overwritten := overwritten + 1;
      }
      written := written + 1;
      Place(e);
    }

    /** The new event takes the slot of the oldest. */
    method Place(e: Event)
      requires Valid() && entries.Length > 0
      modifies this`next, this`count, this`kept, entries
      ensures Valid() && kept == Newest(old(kept) + [e], entries.Length)
    {
      ghost var ring, was := entries[..], next;
      RingAdds(ring, next, kept, e);
      entries[next] := e;
      assert entries[..] == ring[was := e];
      next := Advance(next, entries.Length);
      if count < entries.Length {
        count := count + 1;
      }
      kept := Newest(kept + [e], entries.Length);
    }

    /** A new array with the newest `keep` events from oldest to newest. */
    method CopyNewest(capacity: nat, keep: nat) returns (room: array<Event>)
      requires Valid() && keep <= count && keep <= capacity
      ensures fresh(room) && room.Length == capacity
      ensures forall j | 0 <= j < keep :: room[j] == kept[count - keep + j]
    {
      room := new Event[capacity](_ => 0);
      for i := 0 to keep
        invariant forall j | 0 <= j < i :: room[j] == kept[count - keep + j]
      {
        var entry := RecentRead(keep - 1 - i);
        room[i] := entry.value;
      }
    }

    /** `eigrp_eventlog_resize`; `memory` is the outcome of `calloc`. */
    method ResizeTo(capacity: nat, memory: bool) returns (ok: bool)
      requires Valid() && capacity < TWO31
      modifies this
      ensures Valid()
      ensures ok <==> capacity == old(entries.Length) || capacity == 0 || memory
      ensures View() == if ok then Next(old(View()), Resize(capacity)) else old(View())
      ensures entries == old(entries) || fresh(entries)
    {
      if capacity == entries.Length {
        return true;
      }
      if capacity != 0 && !memory {
        return false;
      }
      var keep := if count < capacity then count else capacity;
      if count > keep {
        overwritten := overwritten + (count - keep);
      }
      var room := CopyNewest(capacity, keep);
      Install(room, keep);
      return true;
    }

    method Install(room: array<Event>, keep: nat)
      requires Valid() && room.Length < TWO31
      requires keep == if count < room.Length then count else room.Length
      requires forall j | 0 <= j < keep :: room[j] == kept[count - keep + j]
      modifies this`entries, this`next, this`count, this`kept
      ensures Valid() && entries == room && kept == Newest(old(kept), room.Length)
    {
      var capacity := room.Length;
      kept := Newest(kept, capacity);
      entries := room;
      count := keep;
      if capacity != 0 {
        Wraps(keep, capacity);
      }
      next := if capacity != 0 then keep % capacity else 0;
    }

    method ClearAll()
      requires Valid()
      modifies this
      ensures Valid() && entries == old(entries)
      ensures View() == Next(old(View()), Clear)
    {
      count, next, written, overwritten := 0, 0, 0, 0;
      kept := [];
    }

    /** `eigrp_eventlog_msg_iterate`: newest first. */
    method Iterate() returns (seen: seq<Event>)
      requires Valid()
      ensures seen == Reversed(kept)
    {
      seen := [];
      for i := 0 to count
        invariant |seen| == i
        invariant forall j | 0 <= j < i :: seen[j] == kept[count - 1 - j]
      {
        var entry := RecentRead(i);
        seen := seen + [entry.value];
      }
    }
  }
}
