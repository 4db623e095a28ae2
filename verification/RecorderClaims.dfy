/** What callers of the recorder may rely on, in every interleaving. */
module RecorderClaims {
  import opened Wrappers
  import opened Recorder
  import opened RecorderSafety

  // -------------------------------------------------------------------------
  // Slots
  // -------------------------------------------------------------------------

  /** The index a thread is working on, if any. */
  function IndexOf(thread: Thread): Option<nat> {
    match thread.phase
    case Indexed(_, i) => Some(i)
    case Dropping(_, i) => Some(i)
    case Writing(_, i, _) => Some(i)
    case Published(_, i) => Some(i)
    case InCallback(_, i) => Some(i)
    case _ => None
  }

  /** No two threads ever work on one index, and no call is given two. */
  lemma IndicesAreDistinct(s: State, t: nat, u: nat)
    requires Inv(s) && t < |s.threads| && u < |s.threads| && t != u
    requires IndexOf(s.threads[t]).Some?
    ensures IndexOf(s.threads[t]) != IndexOf(s.threads[u])
    ensures forall i, j :: 0 <= i < j < |s.claims| ==> s.claims[i].id != s.claims[j].id
  {
    hide Stamp, ThreadsOk, Written, Copied;
    ThreadIsOk(s, t);
    ThreadIsOk(s, u);
    forall i, j | 0 <= i < j < |s.claims| ensures s.claims[i].id != s.claims[j].id {
      assert Settled(s, i) && Settled(s, j);
    }
  }

  /** One action changes no thread but its own, and a slot only when its thread claimed it and has not published it. */
  lemma StepGrows(s: State, t: nat, a: Action)
    requires Inv(s) && t < |s.threads| && PhaseFits(s, s.threads[t])
    ensures Grows(s, Step(s, t, a), t)
  {
    hide RecordStep, ReadNext, Inv;
    if !s.aborted && a.Proceed? && s.threads[t].nested.None? && !IsReading(s.threads[t].phase) {
      RecordStepGrows(s, t);
    } else if s.threads[t].nested.Some? {
      NestedCallAwaits(s, t);
    }
  }

  lemma NestedCallAwaits(s: State, t: nat)
    requires Inv(s) && t < |s.threads| && s.threads[t].nested.Some?
    ensures Awaits(s, t, s.threads[t].nested.value)
  {
    ThreadIsOk(s, t);
  }

  lemma RecordStepGrows(s: State, t: nat)
    requires Inv(s) && t < |s.threads| && PhaseFits(s, s.threads[t])
    ensures Grows(s, RecordStep(s, t), t)
  {
    hide Stamp, HasViolation, ThreadsOk, Written, Copied, ClaimsOk, FatesOk, SlotsOk;
    ThreadIsOk(s, t);
  }

  /** Once published, a slot is never written again: not by the next action, and not in any run. */
  lemma {:induction false} PublishedSlotsAreFinal(s: State, schedule: seq<(nat, Action)>, index: nat)
    requires Inv(s) && IsPublished(s, index)
    ensures var r := Run(s, schedule); IsPublished(r, index) && r.slots[index] == s.slots[index]
    decreases |schedule|
  {
    hide Inv, Step;
    if schedule != [] {
      var n := Schedule(s, schedule[0]);
      ScheduleKeeps(s, schedule[0]);
      if schedule[0].0 < |s.threads| {
        InvFits(s, schedule[0].0);
        StepGrows(s, schedule[0].0, schedule[0].1);
      }
      PublishedSlotsAreFinal(n, schedule[1..], index);
    }
  }

  /** A published slot holds, whole, the event of the call that claimed it, under sequence number index + 1. */
  lemma PublishedSlotsAreWhole(s: State, index: nat)
    requires Inv(s) && IsPublished(s, index)
    ensures index < s.claimed && s.claims[index].id < |s.calls|
    ensures s.slots[index].words == Stamp(s.calls[s.claims[index].id], index)
    ensures s.slots[index].words[SEQUENCE_WORD] == index + 1
  {
    assert SlotOk(s, index);
  }

  /** What the report callback is shown. */
  lemma CallbacksSeeWholeEvents(s: State, t: nat)
    requires Inv(s) && t < |s.threads| && s.threads[t].phase.InCallback?
    ensures var p := s.threads[t].phase;
      p.id < |s.calls| && p.index < |s.slots| && s.slots[p.index].words == Stamp(s.calls[p.id], p.index)
  {
    hide Stamp, ThreadsOk, ClaimsOk, FatesOk;
    ThreadIsOk(s, t);
    assert SlotOk(s, s.threads[t].phase.index);
  }

  /** A snapshot that reports success holds sequences 1 to count, each of them whole. */
  lemma SnapshotIsExact(s: State, t: nat)
    requires Inv(s) && t < |s.threads| && s.threads[t].phase.SnapDone?
    requires s.threads[t].phase.room.buffer && s.threads[t].phase.status == Success
    ensures var p := s.threads[t].phase;
      && |p.out| == p.written <= s.claimed
      && forall j :: 0 <= j < |p.out| ==>
           && s.claims[j].id < |s.calls|
           && p.out[j] == Stamp(s.calls[s.claims[j].id], j)
           && p.out[j][SEQUENCE_WORD] == j + 1
  {
    hide ThreadsOk, ClaimsOk, FatesOk, SlotsOk;
    ThreadIsOk(s, t);
    var p := s.threads[t].phase;
    forall j | 0 <= j < |p.out|
      ensures s.claims[j].id < |s.calls| && p.out[j] == Stamp(s.calls[s.claims[j].id], j)
              && p.out[j][SEQUENCE_WORD] == j + 1
    {
      PublishedSlotsAreWhole(s, j);
    }
  }

  // -------------------------------------------------------------------------
  // Conservation
  // -------------------------------------------------------------------------

  ghost function Count<T>(items: seq<T>, p: T -> bool): nat {
    if items == [] then 0 else Count(items[1..], p) + if p(items[0]) then 1 else 0
  }

  lemma {:induction false} CountAfterUpdate<T>(items: seq<T>, p: T -> bool, i: nat, item: T)
    requires i < |items|
    ensures Count(items[i := item], p) + (if p(items[i]) then 1 else 0) == Count(items, p) + (if p(item) then 1 else 0)
  {
    if i == 0 {
      assert items[0 := item][1..] == items[1..];
    } else {
      assert items[i := item][1..] == items[1..][i - 1 := item];
      CountAfterUpdate(items[1..], p, i - 1, item);
    }
  }

  lemma {:induction false} CountOfNone<T>(items: seq<T>, p: T -> bool)
    requires forall i :: 0 <= i < |items| ==> !p(items[i])
    ensures Count(items, p) == 0
  {
    if items != [] {
      CountOfNone(items[1..], p);
    }
  }

  predicate SlotPublished(slot: Slot) {
    slot.published
  }

  predicate HasIndex(thread: Thread) {
    thread.phase.Indexed? || thread.phase.Dropping? || thread.phase.Writing?
  }

  /** Every index handed out is in a published slot, counted as dropped, or held by a call in flight. */
  ghost predicate Conserved(s: State) {
    s.claimed == Count(s.slots, SlotPublished) + s.dropped + Count(s.threads, HasIndex)
  }

  lemma StartsConserved(capacity: nat, threads: nat, mode: Mode, hasCallback: bool)
    ensures Conserved(Initial(capacity, threads, mode, hasCallback))
  {
    var s := Initial(capacity, threads, mode, hasCallback);
    CountOfNone(s.slots, SlotPublished);
    CountOfNone(s.threads, HasIndex);
  }

  lemma StepConserves(s: State, t: nat, a: Action)
    requires Inv(s) && Conserved(s) && t < |s.threads| && PhaseFits(s, s.threads[t])
    ensures Conserved(Step(s, t, a))
  {
    hide Inv, Continue, Count;
    if !s.aborted && a.Proceed? {
      ContinueConserves(s, t);
    } else {
      CountAfterUpdate(s.threads, HasIndex, t, Step(s, t, a).threads[t]);
      assert s.threads[t := s.threads[t]] == s.threads;
    }
  }

  function One(b: bool): nat {
    if b then 1 else 0
  }

  /** The slot a step of this thread may change; any valid index otherwise. */
  function Touched(thread: Thread): nat {
    if thread.phase.Writing? then thread.phase.index else 0
  }

  /** What a step takes from one account it gives to another. */
  ghost predicate Balanced(s: State, n: State, t: nat, i: nat)
  {
    && t < |s.threads| == |n.threads| && n.threads == s.threads[t := n.threads[t]]
    && (n.slots == s.slots || (i < |s.slots| == |n.slots| && n.slots == s.slots[i := n.slots[i]]))
    && n.claimed - s.claimed ==
         n.dropped - s.dropped + One(HasIndex(n.threads[t])) - One(HasIndex(s.threads[t]))
         + if n.slots != s.slots then One(n.slots[i].published) - One(s.slots[i].published) else 0
  }

  lemma ContinueBalances(s: State, t: nat)
    requires Inv(s) && t < |s.threads| && PhaseFits(s, s.threads[t])
    ensures Balanced(s, Continue(s, t), t, Touched(s.threads[t]))
  {
    hide Inv, Balanced, ReadNext, RecordStep;
    var thread := s.threads[t];
    if thread.nested.Some? {
      PutBalances(s, Reenter(s, t, thread.nested.value), t);
    } else if IsReading(thread.phase) {
      PutBalances(s, To(s, t, ReadNext(s, thread.phase)), t);
    } else if thread.phase.Writing? {
      WritingBalances(s, t);
    } else {
      RecordBalances(s, t);
    }
  }

  lemma RecordBalances(s: State, t: nat)
    requires t < |s.threads| && PhaseFits(s, s.threads[t]) && !s.threads[t].phase.Writing?
    ensures Balanced(s, RecordStep(s, t), t, Touched(s.threads[t]))
  {
    hide Balanced, HasViolation;
    var phase := s.threads[t].phase;
    if phase.Seen? || phase.Indexed? || phase.Dropping? {
      ClaimingBalances(s, t);
    } else {
      PutBalances(s, RecordStep(s, t), t);
    }
  }

  lemma ClaimingBalances(s: State, t: nat)
    requires t < |s.threads| && PhaseFits(s, s.threads[t])
    requires s.threads[t].phase.Seen? || s.threads[t].phase.Indexed? || s.threads[t].phase.Dropping?
    ensures Balanced(s, RecordStep(s, t), t, Touched(s.threads[t]))
  {
    hide Balanced, HasViolation, Finish;
    PutBalances(s, RecordStep(s, t), t);
  }

  /** A step that leaves the slots alone. */
  lemma PutBalances(s: State, n: State, t: nat)
    requires t < |s.threads| == |n.threads| && n.threads == s.threads[t := n.threads[t]]
    requires n.slots == s.slots
    requires n.claimed - s.claimed == n.dropped - s.dropped + One(HasIndex(n.threads[t])) - One(HasIndex(s.threads[t]))
    ensures Balanced(s, n, t, Touched(s.threads[t]))
  {
  }

  lemma WritingBalances(s: State, t: nat)
    requires Inv(s) && t < |s.threads| && PhaseFits(s, s.threads[t])
    requires s.threads[t].phase.Writing? && s.threads[t].nested.None?
    ensures Balanced(s, RecordStep(s, t), t, Touched(s.threads[t]))
  {
    hide Stamp, ThreadsOk, ClaimsOk, FatesOk, SlotsOk, Written, Copied;
    ThreadIsOk(s, t);
  }

  lemma ContinueConserves(s: State, t: nat)
    requires Inv(s) && Conserved(s) && t < |s.threads| && PhaseFits(s, s.threads[t])
    ensures Conserved(Continue(s, t))
  {
    hide Inv, Continue, Count;
    var n := Continue(s, t);
    var i := Touched(s.threads[t]);
    ContinueBalances(s, t);
    CountAfterUpdate(s.threads, HasIndex, t, n.threads[t]);
    if n.slots != s.slots {
      CountAfterUpdate(s.slots, SlotPublished, i, n.slots[i]);
    }
  }

  /** In every interleaving: handed out = published + dropped + in flight. */
  lemma {:induction false} IndicesAreConserved(s: State, schedule: seq<(nat, Action)>)
    requires Inv(s) && Conserved(s)
    ensures Conserved(Run(s, schedule))
    decreases |schedule|
  {
    hide Inv, Step, Conserved;
    if schedule != [] {
      ScheduleKeeps(s, schedule[0]);
      if schedule[0].0 < |s.threads| {
        InvFits(s, schedule[0].0);
        StepConserves(s, schedule[0].0, schedule[0].1);
      }
      IndicesAreConserved(Schedule(s, schedule[0]), schedule[1..]);
    }
  }

  predicate IsReentered(fate: Fate) {
    fate.Reentered?
  }

  /** The re-entrant counter counts the calls made while their thread was recording another. */
  ghost predicate ReentriesCounted(s: State) {
    s.reentrant == Count(s.fates, IsReentered)
  }

  lemma StartsWithNoReentry(capacity: nat, threads: nat, mode: Mode, hasCallback: bool)
    ensures ReentriesCounted(Initial(capacity, threads, mode, hasCallback))
  {
  }

  lemma {:induction false} CountAfterAppend<T>(items: seq<T>, p: T -> bool, item: T)
    ensures Count(items + [item], p) == Count(items, p) + if p(item) then 1 else 0
  {
    if items == [] {
      assert [item][1..] == [];
    } else {
      assert (items + [item])[1..] == items[1..] + [item];
      CountAfterAppend(items[1..], p, item);
    }
  }

  lemma StepCountsReentries(s: State, t: nat, a: Action)
    requires Inv(s) && ReentriesCounted(s) && t < |s.threads| && PhaseFits(s, s.threads[t])
    ensures ReentriesCounted(Step(s, t, a))
  {
    hide Inv, Count, PhaseFits, Continue;
    if s.aborted {
    } else if a.Call? {
      CountAfterAppend(s.fates, IsReentered, Pending(t));
    } else if a.Proceed? {
      ContinueCountsReentries(s, t);
    }
  }

  lemma ContinueCountsReentries(s: State, t: nat)
    requires Inv(s) && ReentriesCounted(s) && t < |s.threads| && PhaseFits(s, s.threads[t])
    ensures ReentriesCounted(Continue(s, t))
  {
    hide ThreadsOk, ClaimsOk, FatesOk, SlotsOk, Count, HasViolation, Stamp, Written, Copied, CopyNext;
    ThreadIsOk(s, t);
    var thread := s.threads[t];
    if thread.nested.Some? {
      CountAfterUpdate(s.fates, IsReentered, thread.nested.value, Reentered);
    } else if thread.phase.Seen? {
      CountAfterUpdate(s.fates, IsReentered, thread.phase.id, Claimed(s.claimed));
    } else {
      OtherFatesStand(s, t);
    }
  }

  lemma OtherFatesStand(s: State, t: nat)
    requires t < |s.threads| && PhaseFits(s, s.threads[t])
    requires s.threads[t].nested.None? && !s.threads[t].phase.Seen?
    ensures Continue(s, t).fates == s.fates && Continue(s, t).reentrant == s.reentrant
  {
    hide HasViolation, Stamp, CopyNext;
  }

  /** In every interleaving: the counter is the number of re-entrant calls. */
  lemma {:induction false} ReentriesAreCounted(s: State, schedule: seq<(nat, Action)>)
    requires Inv(s) && ReentriesCounted(s)
    ensures ReentriesCounted(Run(s, schedule))
    decreases |schedule|
  {
    hide Inv, Step, ReentriesCounted;
    if schedule != [] {
      ScheduleKeeps(s, schedule[0]);
      if schedule[0].0 < |s.threads| {
        InvFits(s, schedule[0].0);
        StepCountsReentries(s, schedule[0].0, schedule[0].1);
      }
      ReentriesAreCounted(Schedule(s, schedule[0]), schedule[1..]);
    }
  }

  // -------------------------------------------------------------------------
  // When `complete` is the truth
  // -------------------------------------------------------------------------

  predicate InFlight(thread: Thread) {
    thread.nested.Some? || thread.phase.Seen? || thread.phase.Indexed? || thread.phase.Dropping?
        || thread.phase.Writing?
  }

  ghost predicate Quiescent(s: State) {
    forall t :: 0 <= t < |s.threads| ==> !InFlight(s.threads[t])
  }

  /** The call's event is in the buffer, stamped with its own index. */
  predicate InBuffer(s: State, id: nat)
    requires id < |s.fates|
  {
    match s.fates[id]
    case Claimed(i) => IsPublished(s, i) && id < |s.calls| && s.slots[i].words == Stamp(s.calls[id], i)
    case _ => false
  }

  ghost predicate AllInBuffer(s: State) {
    forall id: nat :: id < |s.fates| ==> InBuffer(s, id)
  }

  /** With both counters at zero, the buffer holds every call made while enabled exactly when no call is in flight. */
  lemma CountersAreTruthful(s: State)
    requires Inv(s) && s.dropped == 0 && s.reentrant == 0
    ensures AllInBuffer(s) <==> Quiescent(s)
  {
    hide Stamp, ThreadsOk, ClaimsOk, FatesOk, SlotsOk, Written, Copied;
    if Quiescent(s) {
      forall id: nat | id < |s.fates| ensures InBuffer(s, id) {
        QuiescentCallIsRecorded(s, id);
      }
    }
    if !Quiescent(s) {
      var t :| 0 <= t < |s.threads| && InFlight(s.threads[t]);
      var id := CallInFlight(s, t);
    }
  }

  /** A thread in flight works on a call that is not in the buffer. */
  lemma CallInFlight(s: State, t: nat) returns (id: nat)
    requires Inv(s) && t < |s.threads| && InFlight(s.threads[t])
    ensures id < |s.fates| && !InBuffer(s, id)
  {
    hide Stamp, ThreadsOk, ClaimsOk, FatesOk, SlotsOk, Written, Copied;
    ThreadIsOk(s, t);
    var thread := s.threads[t];
    if thread.nested.Some? {
      return thread.nested.value;
    }
    id := thread.phase.id;
    if !thread.phase.Seen? {
      ClaimIsSettled(s, thread.phase.index);
    }
  }

  lemma ClaimIsSettled(s: State, index: nat)
    requires ClaimsOk(s) && index < |s.claims|
    ensures Settled(s, index)
  {
  }

  lemma QuiescentCallIsRecorded(s: State, id: nat)
    requires Inv(s) && s.dropped == 0 && s.reentrant == 0 && Quiescent(s) && id < |s.fates|
    ensures InBuffer(s, id)
  {
    hide Stamp, ThreadsOk;
    assert FateOk(s, id);
    if s.fates[id].Claimed? {
      assert Settled(s, s.fates[id].index);
      assert SlotOk(s, s.fates[id].index);
    }
  }

  lemma {:induction false} CountOfFirst<T>(items: seq<T>, p: T -> bool, k: nat)
    requires k <= |items| && forall i :: 0 <= i < k ==> p(items[i])
    ensures Count(items, p) >= k
  {
    if k > 0 {
      CountOfFirst(items[1..], p, k - 1);
    }
  }

  /** A counter above zero stands for a call that is not in the buffer. */
  lemma LossesAreCounted(s: State)
    requires Inv(s) && Conserved(s) && ReentriesCounted(s) && AllInBuffer(s)
    ensures s.dropped == 0 && s.reentrant == 0
  {
    hide ThreadsOk, FatesOk, SlotsOk, Stamp, Count;
    forall id: nat | id < |s.fates| ensures !IsReentered(s.fates[id]) {
      assert InBuffer(s, id);
    }
    CountOfNone(s.fates, IsReentered);
    forall i: nat | i < s.claimed ensures IsPublished(s, i) {
      assert Settled(s, i);
      assert InBuffer(s, s.claims[i].id);
    }
    assert s.claimed > 0 ==> IsPublished(s, s.claimed - 1);
    forall i: nat | i < s.claimed ensures SlotPublished(s.slots[i]) {
      assert IsPublished(s, i);
    }
    CountOfFirst(s.slots, SlotPublished, s.claimed);
  }

  /**
   * Statistics read while no call is in flight say `complete` exactly when the
   * buffer holds every call made while recording was enabled.
   */
  lemma CompleteIsTruthful(s: State, t: nat)
    requires Inv(s) && Conserved(s) && ReentriesCounted(s) && Quiescent(s) && !s.aborted
    requires t < |s.threads| && s.threads[t].phase.Idle?
    ensures var report := StatsReport(s, s.claimed, s.dropped);
      && Run(s, ReadStats(t)) == To(s, t, StatsDone(report))
      && (report.complete <==> AllInBuffer(s))
  {
    hide Inv, Conserved, ReentriesCounted, AllInBuffer, Run, PhaseFits, Stamp;
    if s.dropped == 0 && s.reentrant == 0 {
      CountersAreTruthful(s);
    }
    if AllInBuffer(s) {
      LossesAreCounted(s);
    }
    StatsAlone(s, t);
  }

  function ReadStats(t: nat): seq<(nat, Action)> {
    [(t, GetStats), (t, Proceed), (t, Proceed)]
  }

  lemma StatsAlone(s: State, t: nat)
    requires Inv(s) && !s.aborted && t < |s.threads| && s.threads[t].phase.Idle? && s.threads[t].nested.None?
    ensures Run(s, ReadStats(t)) == To(s, t, StatsDone(StatsReport(s, s.claimed, s.dropped)))
  {
    hide Inv, Run, PhaseFits;
    var m := ReadStats(t);
    assert m[0..] == m;
    var one := Unroll(s, m, 0);
    assert one == To(s, t, StatsClaimed(s.claimed));
    var two := Unroll(one, m, 1);
    assert two == To(s, t, StatsDropped(s.claimed, s.dropped));
    var three := Unroll(two, m, 2);
    assert three == To(s, t, StatsDone(StatsReport(s, s.claimed, s.dropped)));
  }

  /**
   * Away from quiescence the report can be wrong: here one thread holds the
   * only slot, a second is certain to be dropped but has not counted itself
   * yet, and a third is told that the recording is complete.
   */
  lemma CompleteNeedsQuiescence(w: Payload)
    ensures var start := Initial(1, 3, Record, false);
      && Inv(start)
      && var s := Run(start, OverclaimSchedule(w));
      && |s.threads| == 3
      && s.threads[1].phase == Dropping(1, 1)
      && s.threads[2].phase == StatsDone(Stats(true, 1, 0, 0, 3))
  {
    hide Inv, Run, Stamp;
    InitialInv(1, 3, Record, false);
    var m := OverclaimSchedule(w);
    var s0 := Initial(1, 3, Record, false);
    assert m[0..] == m;
    var s5 := TwoClaims(w, s0);
    hide Initial, Continue, Step;
    var s6 := Unroll(s5, m, 5);
    assert s6 == To(s5, 2, StatsClaimed(2));
    var s7 := Unroll(s6, m, 6);
    assert s7 == To(s5, 2, StatsDropped(2, 0));
    var s8 := Unroll(s7, m, 7);
  }

  lemma TwoClaims(w: Payload, s0: State) returns (s5: State)
    requires Inv(s0) && s0 == Initial(1, 3, Record, false)
    ensures Inv(s5) && Run(s0, OverclaimSchedule(w)[0..]) == Run(s5, OverclaimSchedule(w)[5..])
    ensures s5 == Initial(1, 3, Record, false).(
              claimed := 2, calls := [w, w], fates := [Claimed(0), Claimed(1)], claims := [Claim(0, 0), Claim(1, 1)],
              threads := [Thread(Indexed(0, 0), true, None), Thread(Dropping(1, 1), true, None), IDLE_THREAD])
  {
    hide Inv, Run, Stamp;
    var m := OverclaimSchedule(w);
    var s1 := Unroll(s0, m, 0);
    var s2 := Unroll(s1, m, 1);
    var s3 := Unroll(s2, m, 2);
    var s4 := Unroll(s3, m, 3);
    s5 := Unroll(s4, m, 4);
  }

  /** Takes the first move of what is left of a schedule. */
  lemma Unroll(s: State, m: seq<(nat, Action)>, k: nat) returns (n: State)
    requires Inv(s) && k < |m|
    ensures n == Schedule(s, m[k]) && Inv(n)
    ensures Run(s, m[k..]) == Run(n, m[k + 1..])
    ensures k + 1 == |m| ==> Run(s, m[k..]) == n
  {
    hide Inv, Schedule;
    n := Schedule(s, m[k]);
    ScheduleKeeps(s, m[k]);
    assert m[k..][0] == m[k] && m[k..][1..] == m[k + 1..];
  }

  function OverclaimSchedule(w: Payload): seq<(nat, Action)> {
    [(0, Call(w)), (0, Proceed), (1, Call(w)), (1, Proceed),
     (1, Proceed), (2, GetStats), (2, Proceed), (2, Proceed)]
  }

  // -------------------------------------------------------------------------
  // A snapshot nobody disturbs
  // -------------------------------------------------------------------------

  function Moves(t: nat, n: nat): (m: seq<(nat, Action)>)
    ensures |m| == n
  {
    if n == 0 then [] else [(t, Proceed)] + Moves(t, n - 1)
  }

  function CopyLeft(p: Phase): nat
    requires p.Copying? && |p.out| <= p.count
  {
    (p.count - |p.out|) * (EVENT_WORDS + 2)
    + match p.current
      case None => EVENT_WORDS + 1
      case Some(words) => if |words| <= EVENT_WORDS then EVENT_WORDS - |words| else 0
  }

  lemma CopyTurn(s: State, t: nat) returns (n: State)
    requires Inv(s) && !s.aborted && t < |s.threads| && s.threads[t].nested.None? && s.threads[t].phase.Copying?
    requires forall j :: 0 <= j < s.threads[t].phase.count ==> IsPublished(s, j)
    ensures Inv(n) && n == Schedule(s, (t, Proceed)) && t < |n.threads|
    ensures n == To(s, t, n.threads[t].phase)
    ensures var p, q := s.threads[t].phase, n.threads[t].phase;
      && q.room == p.room
      && match q
         case SnapDone(_, status, written, out) =>
             status == Success && written == p.count && out == p.out && |out| == written
         case Copying(_, count, out, _) =>
             count == p.count && |p.out| <= count && |out| <= count && CopyLeft(q) < CopyLeft(p)
         case _ => false
  {
    hide ThreadsOk, ClaimsOk, FatesOk, SlotsOk;
    StepKeeps(s, t, Proceed);
    ThreadIsOk(s, t);
    n := Schedule(s, (t, Proceed));
    var p := s.threads[t].phase;
    assert |p.out| < p.count ==> IsPublished(s, |p.out|);
  }

  /** With no call in flight every slot below the count is published, so a snapshot meets no busy slot. */
  lemma QuiescentSlotsArePublished(s: State, j: nat)
    requires Inv(s) && Quiescent(s) && j < s.claimed && j < s.capacity
    ensures IsPublished(s, j)
  {
    hide Stamp, ThreadsOk, FatesOk, SlotsOk;
    assert Settled(s, j);
  }

  /** Left to itself, a snapshot whose slots are all published succeeds, with every slot in order. */
  lemma {:induction false} SnapshotAlone(s: State, t: nat) returns (n: nat, done: Phase)
    requires Inv(s) && !s.aborted && t < |s.threads| && s.threads[t].nested.None? && s.threads[t].phase.Copying?
    requires forall j :: 0 <= j < s.threads[t].phase.count ==> IsPublished(s, j)
    ensures done.SnapDone? && done.room == s.threads[t].phase.room && done.status == Success
    ensures done.written == s.threads[t].phase.count == |done.out|
    ensures Run(s, Moves(t, n)) == To(s, t, done)
    decreases var p := s.threads[t].phase; if p.Copying? && |p.out| <= p.count then CopyLeft(p) else 0
  {
    hide Inv, Schedule, CopyLeft;
    var next := CopyTurn(s, t);
    assert next.slots == s.slots;
    if next.threads[t].phase.SnapDone? {
      n, done := 1, next.threads[t].phase;
      assert Moves(t, 1) == [(t, Proceed)] && [(t, Proceed)][1..] == [];
    } else {
      var m;
      forall j | 0 <= j < next.threads[t].phase.count ensures IsPublished(next, j) {
        assert IsPublished(s, j);
      }
      m, done := SnapshotAlone(next, t);
      n := m + 1;
      assert Moves(t, n)[0] == (t, Proceed) && Moves(t, n)[1..] == Moves(t, m);
    }
  }

  /** The whole snapshot, into a buffer that is just large enough, by a thread nobody disturbs. */
  lemma QuietSnapshot(s: State, t: nat) returns (m: seq<(nat, Action)>, done: Phase)
    requires Inv(s) && Quiescent(s) && !s.aborted && t < |s.threads| && s.threads[t].phase.Idle?
    ensures Run(s, m) == To(s, t, done)
    ensures done.SnapDone? && done.room.buffer && done.status == Success
    ensures |done.out| == Min(s.claimed, s.capacity)
  {
    hide Inv, Run, PhaseFits, Conserved;
    var room := Room(true, Min(s.claimed, s.capacity));
    var start := [(t, Snapshot(room)), (t, Proceed)];
    var n;
    var two := SnapshotStarts(s, t, room);
    forall j | 0 <= j < two.threads[t].phase.count ensures IsPublished(two, j) {
      QuiescentSlotsArePublished(s, j);
    }
    n, done := SnapshotAlone(two, t);
    m := start + Moves(t, n);
    assert m[2..] == Moves(t, n) && m[0..] == m;
    assert m[..2] == start;
    var a := Unroll(s, m, 0);
    var b := Unroll(a, m, 1);
    assert b == two;
    assert To(two, t, done) == To(s, t, done);
  }

  /** Reading the two counters leaves only the copying to be done. */
  lemma SnapshotStarts(s: State, t: nat, room: Room) returns (n: State)
    requires Inv(s) && Quiescent(s) && !s.aborted && t < |s.threads| && s.threads[t].phase.Idle?
    requires room == Room(true, Min(s.claimed, s.capacity))
    ensures Inv(Schedule(s, (t, Snapshot(room)))) && Inv(n)
    ensures n == Schedule(Schedule(s, (t, Snapshot(room))), (t, Proceed))
    ensures n == To(s, t, Copying(room, room.capacity, [], None))
  {
    hide Inv, PhaseFits;
    var one := Schedule(s, (t, Snapshot(room)));
    ScheduleKeeps(s, (t, Snapshot(room)));
    assert one == To(s, t, SnapClaimed(room, s.claimed));
    n := Schedule(one, (t, Proceed));
    ScheduleKeeps(one, (t, Proceed));
  }
}
