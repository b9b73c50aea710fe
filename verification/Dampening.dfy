/**
 The prefix-limit penalty engine: fixed-point decay of the penalty score,
 suspension, automatic restart, incident lock and reset, for one neighbor and
 for a whole address family. Both engines share the score arithmetic.
 */
module Dampening {
  import opened Common

  const Q16: nat := 65536
  const UINT16_MAX: nat := 0xffff
  const UINT32_MAX: nat := 0xffff_ffff
  const UINT64_MAX: nat := 0xffff_ffff_ffff_ffff
  const MINUTE_MSEC: nat := 60000

  const FACTORS: seq<nat> := [46341, 55109, 60097, 62758, 64132, 64830, 65182, 65359]
  const MASKS: seq<nat> := [128, 64, 32, 16, 8, 4, 2, 1]

  /** One scope of `maximum-prefix` configuration; 0 means "not given". */
  datatype Policy = Policy(restartMinutes: nat, resetMinutes: nat, restartCount: nat, dampened: bool)

  datatype Phase = Eligible | Suspended | Locked

  datatype Penalty = Penalty(phase: Phase, score: nat, decayAt: nat, incidents: nat,
                             restartDue: nat, resetDue: nat)

  const CLEAN := Penalty(Eligible, 0, 0, 0, 0, 0)

  predicate Wide(p: Policy) {
    p.restartMinutes <= UINT16_MAX && p.resetMinutes <= UINT16_MAX && p.restartCount <= UINT16_MAX
  }

  // ----- decay -----

  predicate BitSet(fraction: nat, i: nat)
    requires i < 8
  {
    fraction / MASKS[i] % 2 == 1
  }

  /** The table factors from the `i`-th on, for the bits set in `fraction`. */
  function Scale(score: nat, fraction: nat, i: nat): (r: nat)
    requires i <= 8
    ensures r <= score
    decreases 8 - i
  {
    if i == 8 then score
    else if BitSet(fraction, i) then
      assert score * FACTORS[i] <= score * 65536;
      Scale(score * FACTORS[i] / 65536, fraction, i + 1)
    else Scale(score, fraction, i + 1)
  }

  /** `score >> k` */
  function Halved(score: nat, k: nat): (r: nat)
    ensures r <= score
    ensures k >= 1 ==> 2 * r <= score
  {
    if k == 0 then score else Halved(score / 2, k - 1)
  }

  /** The part of a half-life that has passed, in 256ths. */
  function Fraction(elapsed: nat, halfLife: nat): nat
    requires halfLife > 0
  {
    elapsed % halfLife * 256 / halfLife
  }

  /** `eigrp_nbr_limit_decay`, `eigrp_pfxlimits_penalty_decay` */
  function Decayed(score: nat, elapsed: nat, halfLife: nat): nat {
    if score == 0 || elapsed == 0 || halfLife == 0 then score
    else if elapsed / halfLife >= 32 then 0
    else
      Scale(Halved(score, elapsed / halfLife), Fraction(elapsed, halfLife), 0)
  }

  method Decay(score: nat, elapsed: nat, halfLife: nat) returns (r: nat)
    ensures r == Decayed(score, elapsed, halfLife)
    ensures r <= score
  {
    if score == 0 || elapsed == 0 || halfLife == 0 {
      return score;
    }
    var whole: nat := elapsed / halfLife;
    if whole >= 32 {
      return 0;
    }
    var fraction := Fraction(elapsed, halfLife);
    r := ScaleByFraction(Halved(score, whole), fraction);
  }

  method ScaleByFraction(score: nat, fraction: nat) returns (r: nat)
    ensures r == Scale(score, fraction, 0)
  {
    r := score;
    for i := 0 to 8
      invariant Scale(r, fraction, i) == Scale(score, fraction, 0)
    {
      if BitSet(fraction, i) {
        r := r * FACTORS[i] / 65536;
      }
    }
  }

  // ----- one violation -----

  function Base(policy: Policy): nat { policy.restartMinutes * MINUTE_MSEC }

  function HalfLife(policy: Policy): nat { Base(policy) + Base(policy) / 2 }

  /** The score that a violation finds. */
  function Found(score: nat, decayAt: nat, halfLife: nat, now: nat): nat {
    if decayAt != 0 && now > decayAt then Decayed(score, now - decayAt, halfLife) else score
  }

  /** One unit more, saturating at 32 bits. */
  function OneMore(score: nat): nat {
    if score > UINT32_MAX - Q16 then UINT32_MAX else score + Q16
  }

  /** The score update of a violation. */
  function Charged(p: Penalty, policy: Policy, now: nat): Penalty {
    if !policy.dampened then p.(score := 0, decayAt := 0)
    else p.(score := OneMore(Found(p.score, p.decayAt, HalfLife(policy), now)), decayAt := now)
  }

  function Counted(p: Penalty): Penalty {
    if p.incidents < UINT16_MAX then p.(incidents := p.incidents + 1) else p
  }

  /** How long a suspension lasts. */
  function Interval(policy: Policy, score: nat): nat {
    if policy.dampened then Base(policy) * score / Q16 else Base(policy)
  }

  function LockedNow(p: Penalty): Penalty { p.(phase := Locked, restartDue := 0, resetDue := 0) }

  function ResetTime(policy: Policy): nat { policy.resetMinutes * MINUTE_MSEC }

  /** What a neighbor violation does once charged and counted: lock at the
      incident limit or when the suspension cannot be timed, else suspend.
      `armed` says that both timers could be allocated. */
  function NeighborSentence(q: Penalty, policy: Policy, now: nat, armed: bool): Penalty {
    if q.incidents >= policy.restartCount then LockedNow(q)
    else if Interval(policy, q.score) > UINT64_MAX - now || Base(policy) == 0 || !armed then LockedNow(q)
    else
      q.(phase := Suspended, restartDue := now + Interval(policy, q.score),
         resetDue := (now + ResetTime(policy)) % (UINT64_MAX + 1))
  }

  /** The same for the address family, which also refuses a reset time that
      leaves the clock. */
  function FamilySentence(q: Penalty, policy: Policy, now: nat, armed: bool): Penalty {
    if q.incidents >= policy.restartCount then LockedNow(q)
    else if Interval(policy, q.score) > UINT64_MAX - now || ResetTime(policy) > UINT64_MAX - now || !armed
    then LockedNow(q)
    else
      q.(phase := Suspended, restartDue := now + Interval(policy, q.score), resetDue := now + ResetTime(policy))
  }

  /** `eigrp_nbr_limit_exceeded` inside `eigrp_nbr_limit_cleanup` */
  function NeighborViolation(p: Penalty, policy: Policy, now: nat, armed: bool): Penalty {
    if p.phase != Eligible then p
    else NeighborSentence(Counted(Charged(p, policy, now)), policy, now, armed)
  }

  /** `eigrp_pfxlimits_prefix_exceeded` */
  function FamilyViolation(p: Penalty, policy: Policy, now: nat, armed: bool): Penalty {
    if p.phase != Eligible then p
    else FamilySentence(Counted(Charged(p, policy, now)), policy, now, armed)
  }

  function RestartExpired(p: Penalty, now: nat): Penalty {
    if p.phase != Suspended || p.restartDue == 0 || now < p.restartDue then p
    else p.(phase := Eligible, restartDue := 0)
  }

  function ResetExpired(p: Penalty, now: nat): Penalty {
    if p.resetDue == 0 || now < p.resetDue then p
    else if p.phase == Locked then p.(resetDue := 0)
    else p.(resetDue := 0, incidents := 0, score := 0, decayAt := 0)
  }

  // ----- configuration -----

  /** `r` is the value of the nearest scope that gives one. */
  predicate Inherited(r: nat, own: nat, all: nat, process: nat) {
    && (own != 0 ==> r == own)
    && (own == 0 && all != 0 ==> r == all)
    && (own == 0 && all == 0 && process != 0 ==> r == process)
  }

  function FirstGiven(own: nat, all: nat, process: nat, fallback: nat): nat {
    if own != 0 then own else if all != 0 then all else if process != 0 then process else fallback
  }

  function OrElse(scope: Option<Policy>): Policy {
    if scope.Some? then scope.value else Policy(0, 0, 0, false)
  }

  /** `eigrp_nbr_limit_values_read`: a neighbor inherits from neighbor-all,
      then from the process; the address family passes `None` twice. */
  function Effective(own: Policy, all: Option<Policy>, process: Option<Policy>): (r: Policy)
    ensures r.restartMinutes > 0 && r.resetMinutes > 0 && r.restartCount > 0
    ensures Inherited(r.restartMinutes, own.restartMinutes, OrElse(all).restartMinutes, OrElse(process).restartMinutes)
    ensures Inherited(r.resetMinutes, own.resetMinutes, OrElse(all).resetMinutes, OrElse(process).resetMinutes)
    ensures Inherited(r.restartCount, own.restartCount, OrElse(all).restartCount, OrElse(process).restartCount)
    ensures Wide(own) && Wide(OrElse(all)) && Wide(OrElse(process)) ==> Wide(r)
    ensures r.dampened <==> own.dampened || OrElse(all).dampened || OrElse(process).dampened
  {
    var a, t := OrElse(all), OrElse(process);
    Policy(FirstGiven(own.restartMinutes, a.restartMinutes, t.restartMinutes, 5),
           FirstGiven(own.resetMinutes, a.resetMinutes, t.resetMinutes, 15),
           FirstGiven(own.restartCount, a.restartCount, t.restartCount, 3),
           own.dampened || a.dampened || t.dampened)
  }

  // ----- runs -----

  datatype Step =
    | Violate(policy: Policy, family: bool, armed: bool)
    | RestartTimer
    | ResetTimer
    | Clear

  function Next(p: Penalty, step: Step, now: nat): Penalty {
    match step
    case Violate(policy, family, armed) =>
      if family then FamilyViolation(p, policy, now, armed) else NeighborViolation(p, policy, now, armed)
    case RestartTimer => RestartExpired(p, now)
    case ResetTimer => ResetExpired(p, now)
    case Clear => CLEAN
  }

  datatype Timed = Timed(now: nat, step: Step)

  /** A policy whose restart time is given and, while a penalty is stored, at
      most a quarter above the one that penalty was charged under. */
  predicate Gentle(p: Penalty, policy: Policy, last: nat) {
    policy.restartMinutes > 0 && (p.score != 0 ==> 4 * Base(policy) <= 5 * last)
  }

  /** The base time of the last violation that counted. */
  function BaseAfter(p: Penalty, step: Step, last: nat): nat {
    if step.Violate? && p.phase == Eligible then Base(step.policy) else last
  }

  /** The clock is positive and does not go back, and from one violation to the
      next the restart time grows by at most a quarter. */
  predicate IsRun(p: Penalty, clock: nat, last: nat, steps: seq<Timed>)
    decreases |steps|
  {
    steps != [] ==>
      var t := steps[0];
      && Later(clock, t.now)
      && (t.step.Violate? && p.phase == Eligible ==> Gentle(p, t.step.policy, last))
      && IsRun(Next(p, t.step, t.now), t.now, BaseAfter(p, t.step, last), steps[1..])
  }

  function After(p: Penalty, steps: seq<Timed>): Penalty
    decreases |steps|
  {
    if steps == [] then p else After(Next(p, steps[0].step, steps[0].now), steps[1..])
  }

  // ----- the bound -----

  /** `base` is the base time of the last violation that counted. */
  predicate Bounded(p: Penalty, clock: nat, base: nat) {
    && (p.score == 0 || Q16 <= p.score <= 2 * Q16)
    && (p.score != 0 ==>
          && 0 < p.decayAt <= clock
          && (p.phase == Suspended ==> p.restartDue >= p.decayAt + base * p.score / Q16)
          && (p.phase == Eligible ==> clock >= p.decayAt + base * p.score / Q16))
    && (p.score == 0 ==> p.decayAt == 0)
  }

  /** The clock is positive and has not gone back. */
  predicate Later(clock: nat, now: nat) { 0 < now && clock <= now }

  /** One factor of the table, when its bit is set. */
  lemma FactorTaken(score: nat, fraction: nat, i: nat, bound: nat)
    requires i < 8 && BitSet(fraction, i) && score <= bound
    ensures Scale(score, fraction, i) <= Scale(bound * FACTORS[i] / 65536, fraction, i + 1)
  {
    ProductGrows(score, bound, FACTORS[i]);
    ScaleMonotone(score * FACTORS[i] / 65536, bound * FACTORS[i] / 65536, fraction, i + 1);
  }

  lemma TopBits(fraction: nat)
    requires 128 <= fraction < 256
    ensures BitSet(fraction, 0)
    ensures fraction >= 192 ==> BitSet(fraction, 1)
    ensures fraction >= 224 ==> BitSet(fraction, 2)
    ensures fraction >= 240 ==> BitSet(fraction, 3)
    ensures 160 <= fraction < 192 ==> !BitSet(fraction, 1) && BitSet(fraction, 2)
  {
  }

  lemma ScaleBelow192(score: nat, fraction: nat)
    requires 128 <= fraction < 192
    requires score <= if fraction < 160 then 76801 else 92161
    ensures Scale(score, fraction, 0) <= Q16
  {
    TopBits(fraction);
    if fraction < 160 {
      FactorTaken(score, fraction, 0, 76801);
    } else {
      FactorTaken(score, fraction, 0, 92161);
      var s1 := 65167;
      assert Scale(s1, fraction, 1) == Scale(s1, fraction, 2);
      FactorTaken(s1, fraction, 2, s1);
    }
  }

  lemma ScaleBelow224(score: nat, fraction: nat)
    requires 192 <= fraction < 224 && score <= 107521
    ensures Scale(score, fraction, 0) <= Q16
  {
    TopBits(fraction);
    var s1 := 76028;
    FactorTaken(score, fraction, 0, 107521);
    FactorTaken(s1, fraction, 1, s1);
  }

  lemma ScaleBelow240(score: nat, fraction: nat)
    requires 224 <= fraction < 240 && score <= 115201
    ensures Scale(score, fraction, 0) <= Q16
  {
    TopBits(fraction);
    var s1, s2 := 81459, 68498;
    FactorTaken(score, fraction, 0, 115201);
    FactorTaken(s1, fraction, 1, s1);
    FactorTaken(s2, fraction, 2, s2);
  }

  lemma ScaleBelow256(score: nat, fraction: nat)
    requires 240 <= fraction < 256 && score <= 122881
    ensures Scale(score, fraction, 0) <= Q16
  {
    TopBits(fraction);
    var s1, s2, s3 := 86890, 73065, 67001;
    FactorTaken(score, fraction, 0, 122881);
    FactorTaken(s1, fraction, 1, s1);
    FactorTaken(s2, fraction, 2, s2);
    FactorTaken(s3, fraction, 3, s3);
  }

  /** The later a score is looked at, the more of it the first factors take. */
  lemma ScaleBound(score: nat, fraction: nat)
    requires 128 <= fraction < 256 && score <= 480 * LimitOf(fraction) + 1
    ensures Scale(score, fraction, 0) <= Q16
  {
    if fraction < 192 {
      ScaleBelow192(score, fraction);
    } else if fraction < 224 {
      ScaleBelow224(score, fraction);
    } else if fraction < 240 {
      ScaleBelow240(score, fraction);
    } else {
      ScaleBelow256(score, fraction);
    }
  }

  /** The range of a fraction from 128 on. */
  function LimitOf(fraction: nat): nat
    requires 128 <= fraction < 256
  {
    if fraction < 160 then 160 else if fraction < 192 then 192 else if fraction < 224 then 224
    else if fraction < 240 then 240 else 256
  }

  lemma FractionAtLeast(x: nat, d: nat, f: nat)
    requires d > 0 && f * d <= x
    ensures f <= x / d
  {
    var q := x / d;
    assert x < (q + 1) * d;
    ProductGrows(q + 1, f, d);
  }

  lemma FractionBelow(x: nat, d: nat, f: nat)
    requires d > 0 && x < f * d
    ensures x / d < f
  {
    var q := x / d;
    assert q * d <= x;
    ProductGrows(f, q, d);
  }

  /** A suspension of `score` waited out within `limit`/256 of a half-life means
      that the score was small: the wait grows with it. */
  lemma ShortWait(score: nat, elapsed: nat, half: nat, last: nat, limit: nat)
    requires half >= 30000 && 8 * half <= 5 * last
    requires elapsed >= last * score / Q16
    requires elapsed * 256 < limit * (3 * half)
    ensures score <= 480 * limit + 1
  {
    assert last * score < (elapsed + 1) * Q16;
    ProductGrows(8 * half, 5 * last, score);
    assert 8 * half * score <= 5 * last * score;
    assert 5 * last * score == 5 * (last * score);
    var x := limit * half;
    assert limit * (3 * half) == 3 * x;
    assert 8 * half * score == 8 * (half * score);
    assert half * score < 480 * x + 40800;
    assert half * (480 * limit + 2) == 480 * x + 2 * half;
    ProductGrows(480 * limit + 2, score, half);
  }

  lemma DecayWithinHalfLife(score: nat, elapsed: nat, half: nat, last: nat)
    requires half >= 30000 && 8 * half <= 5 * last && Q16 <= score
    requires elapsed >= last * score / Q16 && last <= elapsed < 3 * half
    ensures Decayed(score, elapsed, 3 * half) <= Q16
  {
    var fraction := elapsed * 256 / (3 * half);
    FractionOfHalfLife(elapsed, 3 * half);
    var limit := LimitOf(fraction);
    FractionUp(elapsed * 256, 3 * half, limit);
    ShortWait(score, elapsed, half, last, limit);
    ScaleBound(score, fraction);
  }

  lemma FractionUp(x: nat, d: nat, f: nat)
    requires d > 0 && x / d < f
    ensures x < f * d
  {
    var q := x / d;
    assert x < (q + 1) * d;
    ProductGrows(q + 1, f, d);
  }

  lemma FractionOfHalfLife(elapsed: nat, halfLife: nat)
    requires elapsed < halfLife && halfLife <= 2 * elapsed
    ensures elapsed / halfLife == 0 && elapsed % halfLife == elapsed
    ensures 128 <= elapsed * 256 / halfLife < 256
  {
    FractionBelow(elapsed, halfLife, 1);
    assert elapsed == halfLife * (elapsed / halfLife) + elapsed % halfLife;
    FractionAtLeast(elapsed * 256, halfLife, 128);
    FractionBelow(elapsed * 256, halfLife, 256);
  }

  lemma DecayAfterHalfLife(score: nat, elapsed: nat, halfLife: nat)
    requires 0 < halfLife <= elapsed && score <= 2 * Q16
    ensures Decayed(score, elapsed, halfLife) <= Q16
  {
    FractionAtLeast(elapsed, halfLife, 1);
    assert 2 * Halved(score, elapsed / halfLife) <= score;
  }

  /** The penalty a violation finds has decayed to at most one unit, if the
      restart time grew by at most a quarter. */
  lemma DecayBound(score: nat, elapsed: nat, policy: Policy, last: nat)
    requires policy.restartMinutes > 0 && 4 * Base(policy) <= 5 * last
    requires Q16 <= score <= 2 * Q16
    requires elapsed >= last * score / Q16
    ensures elapsed > 0
    ensures Decayed(score, elapsed, HalfLife(policy)) <= Q16
  {
    var half := policy.restartMinutes * 30000;
    assert Base(policy) == 2 * half && HalfLife(policy) == 3 * half;
    assert elapsed >= last by {
      ProductGrows(Q16, score, last);
      FractionAtLeast(last * score, Q16, last);
    }
    if elapsed < 3 * half {
      DecayWithinHalfLife(score, elapsed, half, last);
    } else {
      DecayAfterHalfLife(score, elapsed, 3 * half);
    }
  }

  lemma ChargeKeeps(p: Penalty, policy: Policy, now: nat, clock: nat, last: nat)
    requires Bounded(p, clock, last) && p.phase == Eligible
    requires Later(clock, now) && Gentle(p, policy, last)
    ensures var q := Charged(p, policy, now);
            if policy.dampened then Q16 <= q.score <= 2 * Q16 && q.decayAt == now
            else q.score == 0 && q.decayAt == 0
  {
    if policy.dampened && p.score != 0 {
      DecayBound(p.score, now - p.decayAt, policy, last);
    } else {
      assert Decayed(0, 0, 0) == 0;
    }
  }

  lemma StepKeepsBound(p: Penalty, step: Step, now: nat, clock: nat, last: nat)
    requires Bounded(p, clock, last) && Later(clock, now)
    requires step.Violate? && p.phase == Eligible ==> Gentle(p, step.policy, last)
    ensures Bounded(Next(p, step, now), now, BaseAfter(p, step, last))
  {
    if step.Violate? && p.phase == Eligible {
      ChargeKeeps(p, step.policy, now, clock, last);
    }
  }

  /** Over every run in which the restart time grows by at most a quarter from
      one violation to the next, the stored penalty is absent or between one and
      two units. */
  lemma {:induction false} RunKeepsBound(p: Penalty, clock: nat, last: nat, steps: seq<Timed>)
    requires Bounded(p, clock, last)
    requires IsRun(p, clock, last, steps)
    ensures var q := After(p, steps); q.score == 0 || Q16 <= q.score <= 2 * Q16
    decreases |steps|
  {
    if steps != [] {
      var t := steps[0];
      StepKeepsBound(p, t.step, t.now, clock, last);
      RunKeepsBound(Next(p, t.step, t.now), t.now, BaseAfter(p, t.step, last), steps[1..]);
    }
  }

  /** So every suspension of such a run lasts between once and twice the base
      time, and exactly the base time without dampening. */
  lemma {:induction false} SuspensionLength(clock: nat, last: nat, steps: seq<Timed>, at: nat)
    requires IsRun(CLEAN, clock, last, steps) && at < |steps|
    requires steps[at].step.Violate?
    requires After(CLEAN, steps[..at]).phase == Eligible
    requires After(CLEAN, steps[..at + 1]).phase == Suspended
    ensures var policy := steps[at].step.policy;
            var length := After(CLEAN, steps[..at + 1]).restartDue - steps[at].now;
            && Base(policy) <= length <= 2 * Base(policy)
            && (!policy.dampened ==> length == Base(policy))
  {
    var p := After(CLEAN, steps[..at]);
    var t := steps[at];
    AfterLast(CLEAN, steps, at);
    var (clock', last') := BoundedBefore(CLEAN, clock, last, steps, at);
    ChargeKeeps(p, t.step.policy, t.now, clock', last');
    IntervalBounds(t.step.policy, Charged(p, t.step.policy, t.now).score);
  }

  lemma IntervalBounds(policy: Policy, score: nat)
    requires policy.dampened ==> Q16 <= score <= 2 * Q16
    ensures Base(policy) <= Interval(policy, score) <= 2 * Base(policy)
    ensures !policy.dampened ==> Interval(policy, score) == Base(policy)
  {
    if policy.dampened {
      var base := Base(policy);
      ProductGrows(Q16, score, base);
      ProductGrows(score, 2 * Q16, base);
      FractionAtLeast(base * score, Q16, base);
      FractionBelow(base * score, Q16, 2 * base + 1);
    }
  }

  lemma {:induction false} AfterLast(p: Penalty, steps: seq<Timed>, at: nat)
    requires at < |steps|
    ensures After(p, steps[..at + 1]) == Next(After(p, steps[..at]), steps[at].step, steps[at].now)
    decreases at
  {
    if at == 0 {
      assert steps[..1] == [steps[0]];
      assert [steps[0]][1..] == [];
    } else {
      assert steps[..at + 1][1..] == steps[1..][..at];
      assert steps[..at][1..] == steps[1..][..at - 1];
      AfterLast(Next(p, steps[0].step, steps[0].now), steps[1..], at - 1);
    }
  }

  /** The clock and the base time that bound the state before a step. */
  ghost function {:induction false} BoundedBefore(p: Penalty, clock: nat, last: nat, steps: seq<Timed>, at: nat)
    : (r: (nat, nat))
    requires Bounded(p, clock, last)
    requires IsRun(p, clock, last, steps) && at < |steps|
    ensures Bounded(After(p, steps[..at]), r.0, r.1)
    ensures Later(r.0, steps[at].now)
    ensures var q := After(p, steps[..at]);
            steps[at].step.Violate? && q.phase == Eligible ==> Gentle(q, steps[at].step.policy, r.1)
    decreases at
  {
    if at == 0 then (clock, last)
    else
      var t := steps[0];
      assert steps[..at][1..] == steps[1..][..at - 1];
      StepKeepsBound(p, t.step, t.now, clock, last);
      BoundedBefore(Next(p, t.step, t.now), t.now, BaseAfter(p, t.step, last), steps[1..], at - 1)
  }

  lemma SmallBits(fraction: nat)
    requires fraction < 4
    ensures forall i | 0 <= i < 6 :: !BitSet(fraction, i)
  {
    forall i | 0 <= i < 6 ensures !BitSet(fraction, i) {
      assert MASKS[i] == 128 || MASKS[i] == 64 || MASKS[i] == 32 || MASKS[i] == 16 || MASKS[i] == 8 || MASKS[i] == 4;
    }
  }

  /** A small fraction has only the last two bits. */
  lemma {:induction false} SmallFraction(score: nat, fraction: nat, i: nat)
    requires i <= 6 && forall j | 0 <= j < 6 :: !BitSet(fraction, j)
    ensures Scale(score, fraction, i) == Scale(score, fraction, 6)
    decreases 6 - i
  {
    if i < 6 { SmallFraction(score, fraction, i + 1); }
  }

  lemma LastFactor(score: nat, fraction: nat)
    requires fraction == 1
    ensures Scale(score, fraction, 0) == score * 65359 / 65536
  {
    SmallBits(fraction);
    SmallFraction(score, fraction, 0);
    OneFactor(score, fraction, 7, score * 65359 / 65536);
  }

  lemma LastFactors(score: nat, fraction: nat)
    requires fraction == 3
    ensures Scale(score, fraction, 0) == score * 65182 / 65536 * 65359 / 65536
  {
    SmallBits(fraction);
    SmallFraction(score, fraction, 0);
    var less := score * 65182 / 65536;
    OneFactor(score, fraction, 6, less);
    OneFactor(less, fraction, 7, less * 65359 / 65536);
  }

  lemma SlowDecay(score: nat, elapsed: nat, halfLife: nat)
    requires score == 65536 && elapsed == 60000 && halfLife == 9000000
    ensures Decayed(score, elapsed, halfLife) == 65359
  {
    LastFactor(score, Fraction(elapsed, halfLife));
  }

  lemma SlowestDecay(score: nat, elapsed: nat, halfLife: nat)
    requires score == 130895 && elapsed == 11983795 && halfLife == 900000000
    ensures Decayed(score, elapsed, halfLife) == 129835
  {
    LastFactors(score, Fraction(elapsed, halfLife));
  }

  function Restarting(minutes: nat): Step { Violate(Policy(minutes, 15, 9, true), false, true) }

  const GROWING: seq<Timed> :=
    [Timed(1, Restarting(1)), Timed(60001, RestartTimer), Timed(60001, Restarting(100)),
     Timed(12043796, RestartTimer), Timed(12043796, Restarting(10000))]

  /** With a restart time that grows the bound fails: restart after 1, then
      100, then 10000 minutes, each violation right after the release. */
  lemma GrowingBaseBreaksBound()
    ensures After(CLEAN, GROWING).phase == Suspended
    ensures After(CLEAN, GROWING).score > 2 * Q16
  {
    FiveSteps(CLEAN, GROWING);
    FirstIncident();
    SecondIncident();
    ThirdIncident();
  }

  lemma FirstIncident()
    ensures Next(Next(CLEAN, Restarting(1), 1), RestartTimer, 60001)
              == Penalty(Eligible, 65536, 1, 1, 0, 900001)
  {
  }

  lemma SecondIncident()
    ensures Next(Next(Penalty(Eligible, 65536, 1, 1, 0, 900001), Restarting(100), 60001), RestartTimer, 12043796)
              == Penalty(Eligible, 130895, 60001, 2, 0, 960001)
  {
    SlowDecay(65536, 60000, 9000000);
  }

  lemma ThirdIncident()
    ensures var q := Next(Penalty(Eligible, 130895, 60001, 2, 0, 960001), Restarting(10000), 12043796);
            q.phase == Suspended && q.score == 195371
  {
    SlowestDecay(130895, 11983795, 900000000);
    assert Found(130895, 60001, 900000000, 12043796) == 129835;
  }

  lemma FiveSteps(p: Penalty, steps: seq<Timed>)
    requires |steps| == 5
    ensures After(p, steps) ==
              Next(Next(Next(Next(Next(p, steps[0].step, steps[0].now), steps[1].step, steps[1].now),
                             steps[2].step, steps[2].now), steps[3].step, steps[3].now), steps[4].step, steps[4].now)
  {
    assert steps[..5] == steps && steps[..0] == [];
    AfterLast(p, steps, 0);
    AfterLast(p, steps, 1);
    AfterLast(p, steps, 2);
    AfterLast(p, steps, 3);
    AfterLast(p, steps, 4);
  }

  lemma {:induction false} ScaleMonotone(a: nat, b: nat, fraction: nat, i: nat)
    requires a <= b && i <= 8
    ensures Scale(a, fraction, i) <= Scale(b, fraction, i)
    decreases 8 - i
  {
    if i < 8 {
      if BitSet(fraction, i) {
        ProductGrows(a, b, FACTORS[i]);
        ScaleMonotone(a * FACTORS[i] / 65536, b * FACTORS[i] / 65536, fraction, i + 1);
      } else {
        ScaleMonotone(a, b, fraction, i + 1);
      }
    }
  }

  /** No fraction of a half-life takes away more than all eight factors. */
  lemma {:induction false} ScaleAtMost(score: nat, fraction: nat, i: nat)
    requires i <= 8
    ensures Scale(score, 255, i) <= Scale(score, fraction, i)
    decreases 8 - i
  {
    if i < 8 {
      var less := score * FACTORS[i] / 65536;
      assert BitSet(255, i);
      ScaleAtMost(less, fraction, i + 1);
      if !BitSet(fraction, i) {
        assert score * FACTORS[i] <= score * 65536;
        ScaleMonotone(less, score, fraction, i + 1);
      }
    }
  }

  lemma OneFactor(score: nat, fraction: nat, i: nat, less: nat)
    requires i < 8 && BitSet(fraction, i) && less == score * FACTORS[i] / 65536
    ensures Scale(score, fraction, i) == Scale(less, fraction, i + 1)
  {}

  lemma FullScale(score: nat)
    requires score == 131072
    ensures Scale(score, 255, 0) > Q16
  {
    var s1 := score * FACTORS[0] / 65536;
    OneFactor(score, 255, 0, s1);
    assert s1 == 92682;
    FullScaleStart(s1);
  }

  lemma FullScaleStart(score: nat)
    requires score == 92682
    ensures Scale(score, 255, 1) > Q16
  {
    var s2 := score * FACTORS[1] / 65536;
    OneFactor(score, 255, 1, s2);
    assert s2 == 77935;
    var s3 := s2 * FACTORS[2] / 65536;
    OneFactor(s2, 255, 2, s3);
    assert s3 == 71466;
    FullScaleMiddle(s3);
  }

  lemma FullScaleMiddle(score: nat)
    requires score == 71466
    ensures Scale(score, 255, 3) > Q16
  {
    var s4 := score * FACTORS[3] / 65536;
    OneFactor(score, 255, 3, s4);
    assert s4 == 68436;
    var s5 := s4 * FACTORS[4] / 65536;
    OneFactor(s4, 255, 4, s5);
    assert s5 == 66969;
    var s6 := s5 * FACTORS[5] / 65536;
    OneFactor(s5, 255, 5, s6);
    assert s6 == 66247;
    FullScaleEnd(s6);
  }

  lemma FullScaleEnd(score: nat)
    requires score == 66247
    ensures Scale(score, 255, 6) > Q16
  {
    var s7 := score * FACTORS[6] / 65536;
    OneFactor(score, 255, 6, s7);
    assert s7 == 65889;
    var s8 := s7 * FACTORS[7] / 65536;
    OneFactor(s7, 255, 7, s8);
    assert s8 == 65711;
  }

  /** How far a restart time may grow at the top of the range: a penalty of two
      units that waited out its suspension under the old base time is within the
      bound under a new one exactly when that is at most a third longer. */
  lemma TopScoreExact(policy: Policy, last: nat)
    requires policy.restartMinutes > 0 && last > 0
    ensures (Decayed(2 * Q16, 2 * last, HalfLife(policy)) <= Q16) <==> 3 * Base(policy) <= 4 * last
  {
    assert 2 * HalfLife(policy) == 3 * Base(policy);
    if HalfLife(policy) <= 2 * last {
      DecayAfterHalfLife(2 * Q16, 2 * last, HalfLife(policy));
    } else {
      NeverHalved(2 * last, HalfLife(policy));
    }
  }

  /** Within a half-life two units stay above one. */
  lemma NeverHalved(elapsed: nat, halfLife: nat)
    requires 0 < elapsed < halfLife
    ensures Decayed(2 * Q16, elapsed, halfLife) > Q16
  {
    FractionBelow(elapsed, halfLife, 1);
    var top := Halved(2 * Q16, elapsed / halfLife);
    assert top == 131072;
    ScaleAtMost(top, Fraction(elapsed, halfLife), 0);
    FullScale(top);
  }

  /** Only an operator's clear ends a lock: no violation and no timer does. */
  lemma {:induction false} LockedUntilCleared(p: Penalty, steps: seq<Timed>)
    requires p.phase == Locked
    requires forall i | 0 <= i < |steps| :: !steps[i].step.Clear?
    ensures After(p, steps).phase == Locked
    decreases |steps|
  {
    if steps != [] {
      LockedUntilCleared(Next(p, steps[0].step, steps[0].now), steps[1..]);
    }
  }

  /** The saturating product of the address-family engine never saturates and
      no product leaves 64 bits for configurable times. */
  lemma NoOverflow(policy: Policy, score: nat)
    requires Wide(policy) && score <= UINT32_MAX
    ensures Base(policy) * score <= UINT64_MAX
    ensures (HalfLife(policy)) * 256 <= UINT64_MAX
  {
    ProductGrows(Base(policy), 65535 * 60000, score);
    ProductGrows(score, UINT32_MAX, 65535 * 60000);
  }

  // ----- what a violation and a timer decide -----

  /** The wait in milliseconds for a restart time and a score in 65536ths: the
      restart time itself without dampening, else in proportion, rounded down. */
  predicate WaitIs(wait: nat, policy: Policy, score: nat) {
    var base := policy.restartMinutes * 60000;
    if policy.dampened then wait * 65536 <= base * score < (wait + 1) * 65536 else wait == base
  }

  /** A suspension can be timed: its deadline fits the clock and its timers exist;
      a neighbor needs a restart time, a family a reset deadline that fits. */
  predicate Timeable(policy: Policy, family: bool, armed: bool, wait: nat, now: nat) {
    && armed && now + wait <= 0xffff_ffff_ffff_ffff
    && (if family then now + policy.resetMinutes * 60000 <= 0xffff_ffff_ffff_ffff else policy.restartMinutes > 0)
  }

  /** What a violation makes of an eligible neighbor or family. */
  ghost predicate ViolationLaw(p: Penalty, policy: Policy, family: bool, armed: bool, now: nat, q: Penalty) {
    exists wait: nat {:trigger WaitIs(wait, policy, q.score)} ::
      && WaitIs(wait, policy, q.score)
      && q.incidents == (if p.incidents < 0xffff then p.incidents + 1 else p.incidents)
      && (q.phase == Locked <==> q.incidents >= policy.restartCount || !Timeable(policy, family, armed, wait, now))
      && (q.phase == Locked ==> q.restartDue == 0 && q.resetDue == 0)
      && (q.phase != Locked ==>
            && q.phase == Suspended && q.restartDue == now + wait
            && q.resetDue == (now + policy.resetMinutes * 60000) % 0x1_0000_0000_0000_0000)
      && (policy.dampened <==> q.score > 0)
      && q.decayAt == (if policy.dampened then now else 0)
      && (policy.dampened ==> ScoreLaw(p, policy, now, q.score))
  }

  /** What was left of the score and one unit more, within 32 bits. */
  predicate ScoreLaw(p: Penalty, policy: Policy, now: nat, score: nat) {
    var left := if 0 < p.decayAt < now then Decayed(p.score, now - p.decayAt, 90000 * policy.restartMinutes) else p.score;
    score == if left + 65536 <= 0xffff_ffff then left + 65536 else 0xffff_ffff
  }

  lemma ViolationIs(p: Penalty, policy: Policy, family: bool, armed: bool, now: nat)
    requires p.phase == Eligible
    ensures ViolationLaw(p, policy, family, armed, now, Next(p, Violate(policy, family, armed), now))
  {
    var q := Counted(Charged(p, policy, now));
    var t := Next(p, Violate(policy, family, armed), now);
    var wait := Interval(policy, q.score);
    if family { FamilySentenceIs(q, policy, armed, now, wait); } else { NeighborSentenceIs(q, policy, armed, now, wait); }
    WaitIsInterval(policy, q.score);
    ChargeIs(p, policy, now);
    assert WaitIs(wait, policy, t.score);
  }

  predicate Sentenced(q: Penalty, policy: Policy, family: bool, armed: bool, now: nat, wait: nat, t: Penalty) {
    && t.score == q.score && t.decayAt == q.decayAt && t.incidents == q.incidents
    && (t.phase == Locked <==> q.incidents >= policy.restartCount || !Timeable(policy, family, armed, wait, now))
    && (t.phase == Locked ==> t.restartDue == 0 && t.resetDue == 0)
    && (t.phase != Locked ==>
          && t.phase == Suspended && t.restartDue == now + wait
          && t.resetDue == (now + policy.resetMinutes * 60000) % 0x1_0000_0000_0000_0000)
  }

  lemma NeighborSentenceIs(q: Penalty, policy: Policy, armed: bool, now: nat, wait: nat)
    requires wait == Interval(policy, q.score)
    ensures Sentenced(q, policy, false, armed, now, wait, NeighborSentence(q, policy, now, armed))
  {}

  lemma FamilySentenceIs(q: Penalty, policy: Policy, armed: bool, now: nat, wait: nat)
    requires wait == Interval(policy, q.score)
    ensures Sentenced(q, policy, true, armed, now, wait, FamilySentence(q, policy, now, armed))
  {}

  lemma ChargeIs(p: Penalty, policy: Policy, now: nat)
    ensures var q := Counted(Charged(p, policy, now));
            && q.incidents == (if p.incidents < 0xffff then p.incidents + 1 else p.incidents)
            && (policy.dampened <==> q.score > 0)
            && q.decayAt == (if policy.dampened then now else 0)
            && (policy.dampened ==> ScoreLaw(p, policy, now, q.score))
  {
    assert HalfLife(policy) == 90000 * policy.restartMinutes;
  }

  lemma WaitIsInterval(policy: Policy, score: nat)
    ensures WaitIs(Interval(policy, score), policy, score)
  {}

  /** Anybody else is left alone. */
  lemma PenalizedIsLeftAlone(p: Penalty, policy: Policy, family: bool, armed: bool, now: nat)
    requires p.phase != Eligible
    ensures Next(p, Violate(policy, family, armed), now) == p
  {}

  /** The restart timer ends a suspension that is due and does nothing else. */
  lemma RestartIs(p: Penalty, now: nat)
    ensures var q := Next(p, RestartTimer, now);
            && (q.phase != p.phase <==> p.phase == Suspended && 0 < p.restartDue <= now)
            && (q.phase != p.phase ==> q.phase == Eligible && q.restartDue == 0)
            && q.score == p.score && q.incidents == p.incidents && q.decayAt == p.decayAt && q.resetDue == p.resetDue
  {}

  /** The reset timer forgets the history when it is due, except that of a lock. */
  lemma ResetIs(p: Penalty, now: nat)
    ensures var q := Next(p, ResetTimer, now);
            && q.phase == p.phase && q.restartDue == p.restartDue
            && (q.resetDue == if p.resetDue <= now then 0 else p.resetDue)
            && ((q.incidents, q.score, q.decayAt) == if Forgets(p, ResetTimer, now) then (0, 0, 0)
                                                     else (p.incidents, p.score, p.decayAt))
  {}

  // ----- how often a neighbor is suspended before it is locked -----

  /** The step wipes the incident count. */
  predicate Forgets(p: Penalty, step: Step, now: nat) {
    step.Clear? || (step.ResetTimer? && 0 < p.resetDue <= now && p.phase != Locked)
  }

  predicate NeverForgets(p: Penalty, steps: seq<Timed>)
    decreases |steps|
  {
    steps != [] ==>
      !Forgets(p, steps[0].step, steps[0].now) && NeverForgets(Next(p, steps[0].step, steps[0].now), steps[1..])
  }

  /** The violations that find it eligible. */
  function Incidents(p: Penalty, steps: seq<Timed>): nat
    decreases |steps|
  {
    if steps == [] then 0
    else (if steps[0].step.Violate? && p.phase == Eligible then 1 else 0)
         + Incidents(Next(p, steps[0].step, steps[0].now), steps[1..])
  }

  /** The violations that suspend it. */
  function Suspensions(p: Penalty, steps: seq<Timed>): nat
    decreases |steps|
  {
    if steps == [] then 0
    else
      var q := Next(p, steps[0].step, steps[0].now);
      (if p.phase == Eligible && q.phase == Suspended then 1 else 0) + Suspensions(q, steps[1..])
  }

  predicate LimitAt(steps: seq<Timed>, low: nat, high: nat) {
    forall i | 0 <= i < |steps| && steps[i].step.Violate? :: low <= steps[i].step.policy.restartCount <= high
  }

  /** Without a clear or a due reset, a neighbor or family whose restart count is
      at most `limit` is suspended fewer than `limit` times, counting those before. */
  lemma {:induction false} SuspensionsAreLimited(p: Penalty, steps: seq<Timed>, limit: nat)
    requires NeverForgets(p, steps) && LimitAt(steps, 0, limit) && limit <= 0xffff
    ensures Suspensions(p, steps) == 0 || p.incidents + Suspensions(p, steps) < limit
    decreases |steps|
  {
    if steps != [] {
      var t := steps[0];
      if t.step.Violate? && p.phase == Eligible {
        ViolationIs(p, t.step.policy, t.step.family, t.step.armed, t.now);
      }
      SuspensionsAreLimited(Next(p, t.step, t.now), steps[1..], limit);
    }
  }

  /** Every suspension of the run can be timed. */
  predicate AlwaysTimeable(p: Penalty, steps: seq<Timed>)
    decreases |steps|
  {
    steps != [] ==>
      var t := steps[0];
      var q := Next(p, t.step, t.now);
      && (t.step.Violate? && p.phase == Eligible ==>
            Timeable(t.step.policy, t.step.family, t.step.armed, Interval(t.step.policy, q.score), t.now))
      && AlwaysTimeable(q, steps[1..])
  }

  /** Under one restart count, and as long as suspensions can be timed, the lock
      comes with exactly the incident that reaches the count. */
  lemma {:induction false} LockedAtTheLimit(p: Penalty, steps: seq<Timed>, limit: nat)
    requires NeverForgets(p, steps) && LimitAt(steps, limit, limit) && 0 < limit <= 0xffff
    requires AlwaysTimeable(p, steps) && (p.phase == Locked <==> p.incidents >= limit)
    ensures After(p, steps).incidents == p.incidents + Incidents(p, steps)
    ensures After(p, steps).phase == Locked <==> p.incidents + Incidents(p, steps) >= limit
    decreases |steps|
  {
    if steps != [] {
      var t := steps[0];
      if t.step.Violate? && p.phase == Eligible {
        ViolationIs(p, t.step.policy, t.step.family, t.step.armed, t.now);
        var q := Next(p, t.step, t.now);
        OneWait(t.step.policy, q.score);
      }
      LockedAtTheLimit(Next(p, t.step, t.now), steps[1..], limit);
    }
  }

  lemma OneWait(policy: Policy, score: nat)
    ensures forall wait: nat :: WaitIs(wait, policy, score) ==> wait == Interval(policy, score)
  {
    WaitIsInterval(policy, score);
  }

  /** A suspension lasts until its timer fires at or after the deadline. */
  lemma {:induction false} SuspendedUntilDue(p: Penalty, steps: seq<Timed>)
    requires p.phase == Suspended && p.restartDue > 0
    requires forall i | 0 <= i < |steps| ::
               !steps[i].step.Clear? && (steps[i].step.RestartTimer? ==> steps[i].now < p.restartDue)
    ensures After(p, steps).phase == Suspended && After(p, steps).restartDue == p.restartDue
    decreases |steps|
  {
    if steps != [] {
      SuspendedUntilDue(Next(p, steps[0].step, steps[0].now), steps[1..]);
    }
  }

  // ----- what the decay approximates -----

  /** Each factor of the table is the square root of the one before, rounded, the
      first that of one half: bit `i` stands for a half-life over 2^(i+1). */
  lemma FactorsAreRoots(i: nat)
    requires i < 8
    ensures var before := if i == 0 then 32768 else FACTORS[i - 1];
            var f := 2 * FACTORS[i];
            (f - 1) * (f - 1) < 4 * 65536 * before < (f + 1) * (f + 1)
  {}

  /** The number that the bits from the `i`-th on spell, the half first. */
  function Spelled(fraction: nat, i: nat): nat
    requires i <= 8
    decreases 8 - i
  {
    if i == 8 then 0 else (if BitSet(fraction, i) then MASKS[i] else 0) + Spelled(fraction, i + 1)
  }

  lemma OneBit(fraction: nat, i: nat)
    requires i < 8
    ensures fraction % (2 * MASKS[i]) == (if BitSet(fraction, i) then MASKS[i] else 0) + fraction % MASKS[i]
    ensures MASKS[i] == if i == 7 then 1 else 2 * MASKS[i + 1]
  {
    HalfSplits(fraction, MASKS[i]);
  }

  lemma HalfSplits(x: nat, m: nat)
    requires m > 0
    ensures x % (2 * m) == (if x / m % 2 == 1 then m else 0) + x % m
  {
    var q, r := x / m, x % m;
    var h, b := q / 2, q % 2;
    assert x == q * m + r && q == 2 * h + b;
    var rest := b * m + r;
    Doubled(h, b, m);
    assert x == h * (2 * m) + rest;
    RemainderIs(x, 2 * m, h, rest);
  }

  lemma Doubled(h: nat, b: nat, m: nat)
    ensures (2 * h + b) * m == h * (2 * m) + b * m
  {}

  lemma RemainderIs(x: nat, d: nat, q: nat, r: nat)
    requires d > 0 && r < d && x == q * d + r
    ensures x % d == r
  {
    FractionAtLeast(x, d, q);
    assert (q + 1) * d == q * d + d;
    FractionBelow(x, d, q + 1);
    assert x == d * (x / d) + x % d;
  }

  /** The eight bits looked at are the fraction. */
  lemma {:induction false} BitsSpell(fraction: nat, i: nat)
    requires i < 8
    ensures Spelled(fraction, i) == fraction % (2 * MASKS[i])
    decreases 8 - i
  {
    OneBit(fraction, i);
    if i < 7 { BitsSpell(fraction, i + 1); }
  }

  lemma {:induction false} NoFraction(score: nat, i: nat)
    requires i <= 8
    ensures Scale(score, 0, i) == score
    decreases 8 - i
  {
    if i < 8 { NoFraction(score, i + 1); }
  }

  lemma HalfLifeMore(elapsed: nat, halfLife: nat)
    requires halfLife > 0
    ensures (elapsed + halfLife) / halfLife == elapsed / halfLife + 1
    ensures (elapsed + halfLife) % halfLife == elapsed % halfLife
  {
    var q, x := elapsed / halfLife, elapsed + halfLife;
    assert elapsed == halfLife * q + elapsed % halfLife;
    assert (q + 1) * halfLife == halfLife * q + halfLife && (q + 2) * halfLife == halfLife * q + 2 * halfLife;
    FractionAtLeast(x, halfLife, q + 1);
    FractionBelow(x, halfLife, q + 2);
    assert x == halfLife * (x / halfLife) + x % halfLife;
  }

  /** A whole half-life halves the score exactly. */
  lemma HalfLifeHalves(score: nat, elapsed: nat, halfLife: nat)
    requires halfLife > 0 && score > 1 && elapsed < 31 * halfLife
    ensures Decayed(score, elapsed + halfLife, halfLife) == Decayed(score / 2, elapsed, halfLife)
  {
    HalfLifeMore(elapsed, halfLife);
    FractionBelow(elapsed, halfLife, 31);
    assert Halved(score, elapsed / halfLife + 1) == Halved(score / 2, elapsed / halfLife);
    assert Fraction(elapsed + halfLife, halfLife) == Fraction(elapsed, halfLife);
    if elapsed == 0 {
      FractionBelow(0, halfLife, 1);
      assert Fraction(0, halfLife) == 0;
      NoFraction(score / 2, 0);
    }
  }

  // ----- the engine, updated in place -----

  /** The limit fields that `eigrp_nbr_t` and the instance both hold. */
  class LimitRecord {
    var phase: Phase
    var score: nat
    var decayAt: nat
    var incidents: nat
    var restartDue: nat
    var resetDue: nat

    constructor ()
      ensures View() == CLEAN
    {
      phase, score, decayAt := Eligible, 0, 0;
      incidents, restartDue, resetDue := 0, 0, 0;
    }

    function View(): Penalty
      reads this
    {
      Penalty(phase, score, decayAt, incidents, restartDue, resetDue)
    }

    method Age(halfLife: nat, now: nat)
      modifies this`score
      ensures score == Found(old(score), decayAt, halfLife, now)
    {
      if decayAt != 0 && now > decayAt {
        score := Decay(score, now - decayAt, halfLife);
      }
    }

    method Charge(policy: Policy, now: nat)
      modifies this`score, this`decayAt, this`incidents
      ensures View() == Counted(Charged(old(View()), policy, now))
    {
      if policy.dampened {
        Age(HalfLife(policy), now);
        if score > UINT32_MAX - Q16 {
          score := UINT32_MAX;
        } else {
          score := score + Q16;
        }
        decayAt := now;
      } else {
        score := 0;
        decayAt := 0;
      }
      if incidents < UINT16_MAX {
        incidents := incidents + 1;
      }
    }

    method CancelTimers()
      modifies this`restartDue, this`resetDue
      ensures restartDue == 0 && resetDue == 0
    {
      restartDue, resetDue := 0, 0;
    }

    method Lock()
      modifies this`phase, this`restartDue, this`resetDue
      ensures View() == LockedNow(old(View()))
    {
      phase := Locked;
      CancelTimers();
    }

    method Suspend(restart: nat, reset: nat)
      modifies this`phase, this`restartDue, this`resetDue
      ensures View() == old(View()).(phase := Suspended, restartDue := restart, resetDue := reset)
    {
      phase := Suspended;
      restartDue := restart;
      resetDue := reset;
    }

    /** `eigrp_nbr_limit_exceeded`: a neighbor under a penalty is turned away; a
        sentence that cannot be timed leaves the lock to `NeighborCleanup`. */
    method NeighborExceeded(policy: Policy, now: nat, armed: bool) returns (ok: bool)
      modifies this
      ensures old(phase) != Eligible ==> !ok && View() == old(View())
      ensures old(phase) == Eligible ==>
                (if ok then View() else LockedNow(View())) == NeighborViolation(old(View()), policy, now, armed)
      ensures old(phase) == Eligible && ok ==> ViolationLaw(old(View()), policy, false, armed, now, View())
      ensures old(phase) == Eligible && incidents >= policy.restartCount ==> ok && phase == Locked
    {
      ghost var was := View();
      if phase != Eligible {
        return false;
      }
      ViolationIs(was, policy, false, armed, now);
      Charge(policy, now);
      if incidents >= policy.restartCount {
        Lock();
        return true;
      }
      var restart := Interval(policy, score);
      if restart > UINT64_MAX - now || Base(policy) == 0 {
        return false;
      }
      Suspend(now + restart, (now + ResetTime(policy)) % (UINT64_MAX + 1));
      if !armed {
        Lock();
        return false;
      }
      return true;
    }

    /** `eigrp_nbr_limit_cleanup`: suspended or locked, and still within the
        bound when the restart time grew by at most a quarter. */
    method NeighborCleanup(policy: Policy, now: nat, armed: bool, ghost clock: nat, ghost last: nat)
      requires phase == Eligible
      modifies this
      ensures View() == NeighborViolation(old(View()), policy, now, armed)
      ensures phase != Eligible && ViolationLaw(old(View()), policy, false, armed, now, View())
      ensures old(Bounded(View(), clock, last) && Gentle(View(), policy, last)) && Later(clock, now) ==>
                Bounded(View(), now, Base(policy))
    {
      if Bounded(View(), clock, last) && Later(clock, now) && Gentle(View(), policy, last) {
        StepKeepsBound(View(), Violate(policy, false, armed), now, clock, last);
      }
      ViolationIs(View(), policy, false, armed, now);
      var ok := NeighborExceeded(policy, now, armed);
      if !ok {
        Lock();
      }
    }

    /** The saturating product of `eigrp_pfxlimits_prefix_exceeded`. */
    method FamilyInterval(policy: Policy) returns (interval: nat)
      requires Wide(policy) && score <= UINT32_MAX
      ensures interval == Interval(policy, score)
    {
      interval := Base(policy);
      if policy.dampened {
        if score != 0 && Base(policy) > UINT64_MAX / score {
          NoOverflow(policy, score);
          FractionAtLeast(UINT64_MAX, score, Base(policy));
          assert false;
        } else {
          interval := Base(policy) * score / Q16;
        }
      }
    }

    method FamilyExceeded(policy: Policy, now: nat, armed: bool, ghost clock: nat, ghost last: nat)
      requires Wide(policy) && score <= UINT32_MAX
      modifies this
      ensures View() == FamilyViolation(old(View()), policy, now, armed)
      ensures phase != Eligible
      ensures if old(phase) == Eligible then ViolationLaw(old(View()), policy, true, armed, now, View())
              else View() == old(View())
      ensures old(Bounded(View(), clock, last) && Gentle(View(), policy, last)) && Later(clock, now) ==>
                Bounded(View(), now, BaseAfter(old(View()), Violate(policy, true, armed), last))
    {
      if Bounded(View(), clock, last) && Later(clock, now) && Gentle(View(), policy, last) {
        StepKeepsBound(View(), Violate(policy, true, armed), now, clock, last);
      }
      if phase != Eligible {
        return;
      }
      ViolationIs(View(), policy, true, armed, now);
      Sentence(policy, now, armed);
    }

    method Sentence(policy: Policy, now: nat, armed: bool)
      requires Wide(policy) && score <= UINT32_MAX && phase == Eligible
      modifies this
      ensures View() == FamilyViolation(old(View()), policy, now, armed)
    {
      Charge(policy, now);
      if incidents >= policy.restartCount {
        Lock();
        return;
      }
      CancelTimers();
      var interval := FamilyInterval(policy);
      if interval > UINT64_MAX - now || ResetTime(policy) > UINT64_MAX - now || !armed {
        Lock();
      } else {
        Suspend(now + interval, now + ResetTime(policy));
      }
    }

    /** `eigrp_nbr_limit_restart_expired`: a suspension ends at its deadline, not
        before, and nothing else ends by this timer. */
    method OnRestart(now: nat, ghost clock: nat, ghost last: nat)
      modifies this
      ensures View() == RestartExpired(old(View()), now)
      ensures phase != old(phase) ==> old(phase) == Suspended && phase == Eligible && now >= old(restartDue)
      ensures old(Bounded(View(), clock, last)) && Later(clock, now) ==> Bounded(View(), now, last)
    {
      if Bounded(View(), clock, last) && Later(clock, now) {
        StepKeepsBound(View(), RestartTimer, now, clock, last);
      }
      if phase == Suspended && restartDue != 0 && now >= restartDue {
        restartDue := 0;
        phase := Eligible;
      }
    }

    /** `eigrp_nbr_limit_reset_expired`: the history goes at its deadline, a lock
        and its score stay. */
    method OnReset(now: nat, ghost clock: nat, ghost last: nat)
      modifies this
      ensures View() == ResetExpired(old(View()), now)
      ensures phase == old(phase) && restartDue == old(restartDue)
      ensures phase == Locked || now < old(resetDue) ==> score == old(score) && incidents == old(incidents)
      ensures old(Bounded(View(), clock, last)) && Later(clock, now) ==> Bounded(View(), now, last)
    {
      if Bounded(View(), clock, last) && Later(clock, now) {
        StepKeepsBound(View(), ResetTimer, now, clock, last);
      }
      if resetDue != 0 && now >= resetDue {
        resetDue := 0;
        if phase != Locked {
          incidents, score, decayAt := 0, 0, 0;
        }
      }
    }

    method Clear()
      modifies this
      ensures View() == CLEAN
    {
      CancelTimers();
      phase := Eligible;
      incidents, score, decayAt := 0, 0, 0;
    }
  }
}
