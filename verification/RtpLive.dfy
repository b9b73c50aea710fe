/**
 Queues and deferred multicasts do not wait for each other: `RtpProgress` lets a
 head wait behind a multicast and `RtpWakeup` a multicast for a busy peer, and
 together something of the interface can always move.
 */
module RtpLive {
  import opened Common
  import opened RtpModel
  import opened RtpOrder
  import opened RtpProgress
  import opened RtpWakeup

  ghost predicate TimerArmed(s: Rtp) {
    exists p :: HasHead(s, p) && s.peers[p].queue[0].timer
  }

  /** The writer has an image to send, a timer is armed, or the writer's next
      attempt to admit the oldest multicast does something. */
  ghost predicate CanMove(s: Rtp) {
    || s.obuf != []
    || TimerArmed(s)
    || s.retryTimer
    || (Enabled(s, Admit(true, true)) && forall fits, alloc :: Judge(s, fits, alloc) != Blocked)
  }

  /** A head that is behind no multicast is queued for output or timed. */
  lemma HeadCanMove(s: Rtp, p: PeerId)
    requires HasHead(s, p) && PeerMoves(p, s.peers[p], s)
    requires !Behind(s.pending, s.peers[p], s.peers[p].queue[0].n)
    ensures s.obuf != [] || TimerArmed(s)
  {
    MovesIsMoving(s, p);
    if s.peers[p].queue[0].timer { assert TimerArmed(s); }
  }

  /** The head of a peer that is busy for the oldest multicast is older than it,
      so it is behind none. */
  lemma BusyCanMove(s: Rtp, p: PeerId)
    requires PendingOk(s) && s.pending != [] && BusyFor(s, s.pending[0], p)
    requires PeerMoves(p, s.peers[p], s)
    ensures s.obuf != [] || TimerArmed(s)
  {
    assert s.peers[p].queue[0].n < s.pending[0].n;
    assert forall i :: 0 <= i < |s.pending| ==> s.pending[0].n <= s.pending[i].n;
    HeadCanMove(s, p);
  }

  lemma PendingCanMove(s: Rtp)
    requires RtpInv(s, false) && ProgressInv(s) && WakeInv(s) && s.pending != []
    ensures CanMove(s)
  {
    var m := s.pending[0];
    if s.waiting {
      var p :| Receives(s, m, p);
      assert !ReadyFor(s, m, p);
      BusyCanMove(s, p);
    } else if s.backoff {
      var p :| BusyFor(s, m, p);
      BusyCanMove(s, p);
    }
  }

  /** No deadlock: after every run in which allocations and first wire sends
      succeed, late releases included, an interface with anything left to
      deliver can move. */
  lemma NoDeadlock(steps: seq<Step>)
    requires IsRun(INITIAL, steps) && CleanRun(INITIAL, steps)
    requires var s := After(INITIAL, steps);
             s.pending != [] || exists p :: HasHead(s, p)
    ensures CanMove(After(INITIAL, steps))
  {
    var s := After(INITIAL, steps);
    RunKeepsProgress(INITIAL, steps);
    RunKeepsWake(INITIAL, steps);
    if s.pending != [] {
      PendingCanMove(s);
    } else {
      var p :| HasHead(s, p);
      HeadCanMove(s, p);
    }
  }
}
