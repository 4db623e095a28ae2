/** What a snapshot, a statistics call and a finished call amount to, whatever the other threads do meanwhile. */
module RecorderReads {
  import opened Recorder
  import opened RecorderSafety
  import RecorderClaims

  function PhaseAt(s: State, t: nat): Phase {
    if t < |s.threads| then s.threads[t].phase else Idle
  }

  // -------------------------------------------------------------------------
  // Snapshots
  // -------------------------------------------------------------------------

  /** A snapshot into `room` that found `claimed` indices handed out when it started, as far as it has come. */
  predicate SnapSays(s: State, room: Room, claimed: nat, p: Phase) {
    var count := Min(claimed, s.capacity);
    match p
    case SnapClaimed(r, c) => r == room && c == claimed
    case Copying(r, n, out, _) => r == room && room.buffer && n == count <= room.capacity && |out| <= count
    case SnapDone(r, status, written, out) =>
      && r == room && written == count
      && (status == InvalidArgument <==> if room.buffer then room.capacity < count else room.capacity != 0)
      && (status == Success && room.buffer ==> |out| == count)
      && (status == Busy ==> room.buffer && |out| < count)
      && (!room.buffer || status == InvalidArgument ==> out == [])
    case _ => false
  }

  lemma OthersStand(s: State, move: (nat, Action), t: nat)
    requires Inv(s) && move.0 != t
    ensures PhaseAt(Schedule(s, move), t) == PhaseAt(s, t) && Schedule(s, move).capacity == s.capacity
    ensures |Schedule(s, move).threads| == |s.threads|
  {
    hide Inv, Step;
    if move.0 < |s.threads| {
      InvFits(s, move.0);
      RecorderClaims.StepGrows(s, move.0, move.1);
    }
  }

  lemma ReadsAlone(s: State, t: nat, a: Action)
    requires Inv(s) && t < |s.threads| && IsReading(s.threads[t].phase) && PhaseFits(s, s.threads[t])
    ensures s.threads[t].nested.None?
    ensures var n := Step(s, t, a);
      && n.capacity == s.capacity && |n.threads| == |s.threads|
      && PhaseAt(n, t) == if !s.aborted && a.Proceed? then ReadNext(s, s.threads[t].phase) else s.threads[t].phase
  {
    hide ClaimsOk, FatesOk, SlotsOk, RecordStep, ReadNext, Copied;
    ThreadIsOk(s, t);
  }

  /** One action by anybody; a snapshot that finds a slot busy found it unpublished just then. */
  lemma SnapStep(s: State, move: (nat, Action), t: nat, room: Room, claimed: nat)
    requires Inv(s) && t < |s.threads| && SnapSays(s, room, claimed, s.threads[t].phase)
    requires !s.threads[t].phase.SnapDone?
    ensures var n := Schedule(s, move);
      && n.capacity == s.capacity && |n.threads| == |s.threads|
      && SnapSays(n, room, claimed, n.threads[t].phase)
      && (n.threads[t].phase.SnapDone? && n.threads[t].phase.status == Busy ==>
            !IsPublished(s, |n.threads[t].phase.out|))
  {
    hide Inv, Step;
    if move.0 != t {
      OthersStand(s, move, t);
    } else {
      InvFits(s, t);
      ReadsAlone(s, t, move.1);
    }
  }

  lemma FirstOfRun(s: State, m: seq<(nat, Action)>, k: nat)
    requires Inv(s) && k < |m|
    ensures Inv(Schedule(s, m[0])) && Run(s, m[..k + 1]) == Run(Schedule(s, m[0]), m[1..][..k])
    ensures Run(s, m) == Run(Schedule(s, m[0]), m[1..])
  {
    hide Inv, Schedule;
    ScheduleKeeps(s, m[0]);
    assert m[..k + 1][1..] == m[1..][..k];
  }

  /** No shorter part of the run has finished the snapshot. */
  ghost predicate Unfinished(s: State, m: seq<(nat, Action)>, t: nat)
    requires Inv(s)
  {
    forall k :: 0 <= k < |m| ==> !PhaseAt(Run(s, m[..k]), t).SnapDone?
  }

  lemma UnfinishedRest(s: State, m: seq<(nat, Action)>, t: nat)
    requires Inv(s) && m != [] && Unfinished(s, m, t)
    ensures Inv(Schedule(s, m[0])) && Unfinished(Schedule(s, m[0]), m[1..], t)
    ensures !PhaseAt(s, t).SnapDone?
  {
    hide Inv, Schedule;
    ScheduleKeeps(s, m[0]);
    assert Run(s, m[..0]) == s;
    forall k | 0 <= k < |m[1..]| ensures !PhaseAt(Run(Schedule(s, m[0]), m[1..][..k]), t).SnapDone? {
      FirstOfRun(s, m, k);
    }
  }

  lemma {:induction false} SnapRun(s: State, m: seq<(nat, Action)>, t: nat, room: Room, claimed: nat)
    requires Inv(s) && t < |s.threads| && SnapSays(s, room, claimed, s.threads[t].phase)
    requires Unfinished(s, m, t) && !s.threads[t].phase.SnapDone?
    ensures var n := Run(s, m);
      && n.capacity == s.capacity && |n.threads| == |s.threads|
      && SnapSays(n, room, claimed, PhaseAt(n, t))
      && (PhaseAt(n, t).SnapDone? && PhaseAt(n, t).status == Busy ==>
            m != [] && !IsPublished(Run(s, m[..|m| - 1]), |PhaseAt(n, t).out|))
    decreases |m|
  {
    hide Inv, Schedule, SnapSays, IsPublished, Unfinished;
    if m != [] {
      SnapStep(s, m[0], t, room, claimed);
      UnfinishedRest(s, m, t);
      var n := Schedule(s, m[0]);
      FirstOfRun(s, m, |m| - 1);
      if |m| == 1 {
        assert m[..0] == [] && m[1..] == [];
      } else {
        UnfinishedRest(n, m[1..], t);
        SnapRun(n, m[1..], t, room, claimed);
        FirstOfRun(s, m, |m| - 2);
        assert m[1..][..|m| - 2] == m[1..][..|m[1..]| - 1];
      }
    }
  }

  /**
   * Whatever the other threads do while a snapshot runs: it reports the number
   * of events there were when it started, as far as the capacity goes. It is
   * refused exactly when it is given a buffer with less room than that, or a
   * size without a buffer; it succeeds with exactly that many events, or is
   * called busy by a slot that is unpublished at that moment.
   */
  lemma SnapshotOutcome(s: State, t: nat, room: Room, m: seq<(nat, Action)>)
    requires Inv(s) && !s.aborted && t < |s.threads| && s.threads[t].phase.Idle? && s.threads[t].nested.None?
    requires Inv(Schedule(s, (t, Snapshot(room)))) && Unfinished(Schedule(s, (t, Snapshot(room))), m, t)
    requires PhaseAt(Run(Schedule(s, (t, Snapshot(room))), m), t).SnapDone?
    ensures var first := Schedule(s, (t, Snapshot(room)));
      var p, count := PhaseAt(Run(first, m), t), Min(s.claimed, s.capacity);
      && p.written == count
      && (p.status == InvalidArgument <==> if room.buffer then room.capacity < count else room.capacity != 0)
      && (p.status == Success && room.buffer ==> |p.out| == count)
      && (p.status == Busy ==>
            && room.buffer && |p.out| < count
            && m != [] && !IsPublished(Run(first, m[..|m| - 1]), |p.out|))
  {
    hide Inv, Run, Unfinished, PhaseFits;
    var first := Schedule(s, (t, Snapshot(room)));
    SnapRun(first, m, t, room, s.claimed);
  }

  // -------------------------------------------------------------------------
  // Statistics
  // -------------------------------------------------------------------------

  /** A statistics call that started when `begun` was the state. */
  predicate StatsSay(begun: State, s: State, p: Phase) {
    && s.capacity == begun.capacity && begun.dropped <= s.dropped && begun.reentrant <= s.reentrant
    && match p
       case StatsClaimed(claimed) => claimed == begun.claimed
       case StatsDropped(claimed, dropped) => claimed == begun.claimed && begun.dropped <= dropped <= s.dropped
       case StatsDone(r) =>
         && r.recorded == Min(begun.claimed, s.capacity) && r.nextSequence == begun.claimed + 1
         && begun.dropped <= r.dropped <= s.dropped && begun.reentrant <= r.reentrant <= s.reentrant
         && (r.complete <==> r.dropped == 0 && r.reentrant == 0)
       case Idle => true
       case _ => false
  }

  lemma StatsStep(begun: State, s: State, move: (nat, Action), t: nat)
    requires Inv(s) && t < |s.threads| && StatsSay(begun, s, s.threads[t].phase)
    requires s.threads[t].phase.StatsClaimed? || s.threads[t].phase.StatsDropped?
    ensures var n := Schedule(s, move);
      |n.threads| == |s.threads| && StatsSay(begun, n, n.threads[t].phase) && !n.threads[t].phase.Idle?
  {
    hide Inv, Step;
    if move.0 < |s.threads| {
      InvFits(s, move.0);
      RecorderClaims.StepGrows(s, move.0, move.1);
    }
    if move.0 != t {
      OthersStand(s, move, t);
    } else {
      InvFits(s, t);
      ReadsAlone(s, t, move.1);
    }
  }

  ghost predicate Unreported(s: State, m: seq<(nat, Action)>, t: nat)
    requires Inv(s)
  {
    forall k :: 0 <= k < |m| ==> !PhaseAt(Run(s, m[..k]), t).StatsDone?
  }

  lemma {:induction false} StatsRun(begun: State, s: State, m: seq<(nat, Action)>, t: nat)
    requires Inv(s) && t < |s.threads| && StatsSay(begun, s, s.threads[t].phase) && Unreported(s, m, t)
    requires s.threads[t].phase.StatsClaimed? || s.threads[t].phase.StatsDropped?
    ensures var n := Run(s, m); StatsSay(begun, n, PhaseAt(n, t))
    decreases |m|
  {
    hide Inv, Schedule, StatsSay;
    if m != [] {
      StatsStep(begun, s, m[0], t);
      FirstOfRun(s, m, |m| - 1);
      var n := Schedule(s, m[0]);
      if |m| == 1 {
        assert m[1..] == [];
      } else {
        forall k | 0 <= k < |m[1..]| ensures !PhaseAt(Run(n, m[1..][..k]), t).StatsDone? {
          FirstOfRun(s, m, k);
        }
        assert Run(n, m[1..][..0]) == n;
        assert n.threads[t].phase.StatsClaimed? || n.threads[t].phase.StatsDropped? by { StillReading(begun, n, t); }
        StatsRun(begun, n, m[1..], t);
      }
    }
  }

  lemma StillReading(begun: State, s: State, t: nat)
    requires t < |s.threads| && StatsSay(begun, s, s.threads[t].phase)
    requires !s.threads[t].phase.StatsDone? && !s.threads[t].phase.Idle?
    ensures s.threads[t].phase.StatsClaimed? || s.threads[t].phase.StatsDropped?
  {
  }

  /**
   * Whatever the other threads do meanwhile, statistics report the events and
   * the next sequence number of the moment they started, and losses counted
   * since then or before.
   */
  lemma StatsOutcome(s: State, t: nat, m: seq<(nat, Action)>)
    requires Inv(s) && !s.aborted && t < |s.threads| && s.threads[t].phase.Idle? && s.threads[t].nested.None?
    requires Inv(Schedule(s, (t, GetStats))) && Unreported(Schedule(s, (t, GetStats)), m, t)
    requires PhaseAt(Run(Schedule(s, (t, GetStats)), m), t).StatsDone?
    ensures var n := Run(Schedule(s, (t, GetStats)), m);
      var r := PhaseAt(n, t).stats;
      && r.recorded == Min(s.claimed, s.capacity) && r.nextSequence == s.claimed + 1
      && s.dropped <= r.dropped <= n.dropped && s.reentrant <= r.reentrant <= n.reentrant
      && (r.complete <==> r.dropped == 0 && r.reentrant == 0)
  {
    hide Inv, Run, Unreported, PhaseFits;
    StatsRun(s, Schedule(s, (t, GetStats)), m, t);
  }

  // -------------------------------------------------------------------------
  // The end of a call
  // -------------------------------------------------------------------------

  /**
   * The process is stopped by exactly one thing: in assert mode, the end of a
   * call whose own event is a violation, once that event is published.
   */
  lemma StopsExactly(s: State, t: nat, a: Action)
    requires Inv(s) && !s.aborted && t < |s.threads| && PhaseFits(s, s.threads[t])
    ensures var p := s.threads[t].phase;
      Step(s, t, a).aborted <==>
        && a.Proceed? && s.threads[t].nested.None? && s.mode == Assert
        && (p.Published? || p.InCallback?) && HasViolation(s.calls[p.id])
  {
    hide ThreadsOk, ClaimsOk, FatesOk, SlotsOk, HasViolation, Stamp, CopyNext;
  }

  /** Between its publication and its end a call is shown to the callback exactly in report mode with a callback set. */
  lemma CallbackExactly(s: State, t: nat)
    requires Inv(s) && !s.aborted && t < |s.threads| && s.threads[t].phase.Published? && s.threads[t].nested.None?
    requires PhaseFits(s, s.threads[t])
    ensures var p, n := s.threads[t].phase, Step(s, t, Proceed);
      && n.threads[t].phase ==
           (if s.mode == Report && s.hasCallback then InCallback(p.id, p.index) else Idle)
      && (n.threads[t].inside <==> n.threads[t].phase.InCallback?)
  {
    hide ClaimsOk, FatesOk, SlotsOk, HasViolation, Stamp, Copied, Written;
    ThreadIsOk(s, t);
  }
}
