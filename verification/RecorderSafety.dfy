/** What holds in every interleaving of the recorder. */
module RecorderSafety {
  import opened Wrappers
  import opened Recorder

  // -------------------------------------------------------------------------
  // The invariant
  // -------------------------------------------------------------------------

  predicate Shaped(s: State) {
    && |s.slots| == s.capacity
    && |s.fates| == |s.calls|
    && |s.claims| == s.claimed
  }

  /** Call `id` holds index `index`, claimed by thread `t`. */
  predicate Holds(s: State, t: nat, id: nat, index: nat) {
    && index < |s.claims| && s.claims[index] == Claim(id, t)
    && id < |s.calls|
  }

  /** The slot an index names, as long as its event is not yet published. */
  predicate Unpublished(s: State, index: nat) {
    index < |s.slots| ==> !s.slots[index].published
  }

  predicate IsPublished(s: State, index: nat) {
    index < |s.slots| && s.slots[index].published
  }

  /** The first words of the slot are already those of the stamped event. */
  predicate Written(s: State, id: nat, index: nat, done: nat) {
    && index < |s.slots| && id < |s.calls| && done <= EVENT_WORDS
    && s.slots[index].words[..done] == Stamp(s.calls[id], index)[..done]
  }

  /** A snapshot so far: each copied event is what its slot holds. */
  predicate Copied(s: State, count: nat, out: seq<Payload>) {
    && count <= |s.slots| && count <= s.claimed && |out| <= count
    && forall j :: 0 <= j < |out| ==> IsPublished(s, j) && out[j] == s.slots[j].words
  }

  predicate PhaseOk(s: State, t: nat, thread: Thread) {
    && (thread.nested.Some? ==> thread.inside && Awaits(s, t, thread.nested.value))
    && match thread.phase
       case Idle => !thread.inside
       case Seen(id) => !thread.inside && Awaits(s, t, id)
       case Indexed(id, index) => thread.inside && Holds(s, t, id, index) && Unpublished(s, index)
       case Dropping(id, index) => thread.inside && Holds(s, t, id, index) && index >= s.capacity
       case Writing(id, index, done) => thread.inside && Holds(s, t, id, index) && Unpublished(s, index)
           && Written(s, id, index, done)
       case Published(id, index) => thread.inside && Holds(s, t, id, index) && IsPublished(s, index)
       case InCallback(id, index) => thread.inside && Holds(s, t, id, index) && IsPublished(s, index)
       case SnapClaimed(_, claimed) => !thread.inside && claimed <= s.claimed
       case Copying(_, count, out, current) =>
         && !thread.inside && Copied(s, count, out)
         && (current.Some? ==>
               && |out| < count && IsPublished(s, |out|) && |current.value| <= EVENT_WORDS
               && current.value == s.slots[|out|].words[..|current.value|])
       case SnapDone(room, status, written, out) =>
         && !thread.inside && Copied(s, written, out)
         && (status == Success && room.buffer ==> |out| == written)
       case StatsClaimed(claimed) => !thread.inside && claimed <= s.claimed
       case StatsDropped(claimed, dropped) => !thread.inside && claimed <= s.claimed && dropped <= s.dropped
       case StatsDone(stats) =>
         && !thread.inside && stats.dropped <= s.dropped && stats.reentrant <= s.reentrant
         && (stats.complete <==> stats.dropped == 0 && stats.reentrant == 0)
  }

  /** An enabled call that its thread has yet to give an index or count as re-entrant. */
  predicate Awaits(s: State, t: nat, id: nat) {
    id < |s.fates| && s.fates[id] == Pending(t)
  }

  ghost predicate ThreadsOk(s: State) {
    forall t :: 0 <= t < |s.threads| ==> PhaseOk(s, t, s.threads[t])
  }

  /** Between its fetch-and-add and its publication (or its count as dropped) a call is in flight. */
  predicate Carries(thread: Thread, index: nat) {
    match thread.phase
    case Indexed(_, i) => i == index
    case Dropping(_, i) => i == index
    case Writing(_, i, _) => i == index
    case _ => false
  }

  /** What became of each index handed out. */
  predicate Settled(s: State, index: nat) {
    && index < |s.claims|
    && var c := s.claims[index];
    && c.id < |s.fates| && s.fates[c.id] == Claimed(index)
    && (|| IsPublished(s, index)
        || (index >= s.capacity && s.dropped > 0)
        || (c.thread < |s.threads| && Carries(s.threads[c.thread], index)))
  }

  ghost predicate ClaimsOk(s: State) {
    forall index: nat :: index < |s.claims| ==> Settled(s, index)
  }

  predicate FateOk(s: State, id: nat)
    requires id < |s.fates|
  {
    match s.fates[id]
    case Pending(t) => t < |s.threads| && (s.threads[t].phase == Seen(id) || s.threads[t].nested == Some(id))
    case Claimed(index) => index < |s.claims| && s.claims[index].id == id
    case Reentered => s.reentrant > 0
  }

  ghost predicate FatesOk(s: State) {
    forall id: nat :: id < |s.fates| ==> FateOk(s, id)
  }

  /** A published slot holds, untorn, the event of the call that claimed it. */
  predicate SlotOk(s: State, index: nat)
    requires index < |s.slots|
  {
    s.slots[index].published ==>
      && index < |s.claims| && s.claims[index].id < |s.calls|
      && s.slots[index].words == Stamp(s.calls[s.claims[index].id], index)
  }

  ghost predicate SlotsOk(s: State) {
    forall index: nat :: index < |s.slots| ==> SlotOk(s, index)
  }

  ghost predicate Inv(s: State) {
    Shaped(s) && ThreadsOk(s) && ClaimsOk(s) && FatesOk(s) && SlotsOk(s)
  }

  lemma InvFits(s: State, t: nat)
    requires Inv(s) && t < |s.threads|
    ensures PhaseFits(s, s.threads[t])
  {
  }

  lemma InitialInv(capacity: nat, threads: nat, mode: Mode, hasCallback: bool)
    ensures Inv(Initial(capacity, threads, mode, hasCallback))
  {
  }

  // -------------------------------------------------------------------------
  // What a step by one thread leaves alone
  // -------------------------------------------------------------------------

  /** Everything but thread `t` and what it alone may touch: its own pending calls and unpublished slots. */
  ghost predicate Grows(s: State, n: State, t: nat) {
    && t < |s.threads| == |n.threads|
    && n.capacity == s.capacity
    && (forall u :: 0 <= u < |s.threads| && u != t ==> n.threads[u] == s.threads[u])
    && s.calls <= n.calls && s.claims <= n.claims
    && s.claimed <= n.claimed && s.dropped <= n.dropped && s.reentrant <= n.reentrant
    && |s.fates| <= |n.fates|
    && (forall id :: 0 <= id < |s.fates| && s.fates[id] != Pending(t) ==> n.fates[id] == s.fates[id])
    && |n.slots| == |s.slots|
    && (forall i :: 0 <= i < |s.slots| ==>
          n.slots[i] == s.slots[i] || (!s.slots[i].published && i < |s.claims| && s.claims[i].thread == t))
  }

  lemma OthersKeep(s: State, n: State, t: nat, u: nat)
    requires Shaped(s) && Shaped(n) && Grows(s, n, t)
    requires u < |s.threads| && u != t && PhaseOk(s, u, s.threads[u])
    ensures PhaseOk(n, u, n.threads[u])
  {
    hide Stamp;
    var thread := s.threads[u];
    match thread.phase
    case Copying(_, count, out, current) => CopiedKeeps(s, n, t, count, out);
    case SnapDone(_, _, written, out) => CopiedKeeps(s, n, t, written, out);
    case _ =>
  }

  lemma CopiedKeeps(s: State, n: State, t: nat, count: nat, out: seq<Payload>)
    requires Grows(s, n, t) && Copied(s, count, out)
    ensures Copied(n, count, out)
  {
  }

  lemma Assemble(s: State, n: State, t: nat)
    requires Inv(s) && Shaped(n) && Grows(s, n, t) && PhaseOk(n, t, n.threads[t])
    requires ClaimsOk(n) && FatesOk(n) && SlotsOk(n)
    ensures Inv(n)
  {
    hide Grows, PhaseOk, ClaimsOk, FatesOk, SlotsOk;
    assert |n.threads| == |s.threads| by { GrowsKeepsThreads(s, n, t); }
    forall u | 0 <= u < |n.threads| ensures PhaseOk(n, u, n.threads[u]) {
      if u != t {
        OthersKeep(s, n, t, u);
      }
    }
  }

  lemma GrowsKeepsThreads(s: State, n: State, t: nat)
    requires Grows(s, n, t)
    ensures |n.threads| == |s.threads|
  {
  }

  /** A step that moves only the thread itself, and neither settles a call nor puts down an index. */
  lemma LocalStep(s: State, n: State, t: nat)
    requires Inv(s) && t < |s.threads| == |n.threads|
    requires n == s.(threads := s.threads[t := n.threads[t]], aborted := n.aborted)
    requires PhaseOk(n, t, n.threads[t])
    requires !s.threads[t].phase.Seen? && n.threads[t].nested == s.threads[t].nested
    requires forall i: nat :: Carries(s.threads[t], i) ==> Carries(n.threads[t], i)
    ensures Inv(n)
  {
    hide PhaseOk, ThreadsOk, Stamp;
    assert Grows(s, n, t);
    assert FatesOk(n) by {
      forall id: nat | id < |n.fates| ensures FateOk(n, id) {
        assert FateOk(s, id);
      }
    }
    assert ClaimsOk(n) by {
      forall i: nat | i < |n.claims| ensures Settled(n, i) {
        assert Settled(s, i);
      }
    }
    assert SlotsOk(n) by {
      forall i: nat | i < |n.slots| ensures SlotOk(n, i) {
        assert SlotOk(s, i);
      }
    }
    Assemble(s, n, t);
  }

  lemma BeginKeeps(s: State, t: nat, words: Payload)
    requires Inv(s) && t < |s.threads| && CanCall(s.threads[t])
    ensures Inv(Begin(s, t, words))
  {
    hide Stamp, ThreadsOk;
    if s.enabled {
      var n := Begin(s, t, words);
      assert PhaseOk(s, t, s.threads[t]) by { ThreadIsOk(s, t); }
      assert ClaimsOk(n) by {
        forall i: nat | i < |n.claims| ensures Settled(n, i) {
          assert Settled(s, i);
        }
      }
      assert FatesOk(n) by {
        forall id: nat | id < |n.fates| ensures FateOk(n, id) {
          if id < |s.fates| {
            assert FateOk(s, id);
          }
        }
      }
      assert SlotsOk(n) by {
        forall i: nat | i < |n.slots| ensures SlotOk(n, i) {
          assert SlotOk(s, i);
        }
      }
      Assemble(s, n, t);
    }
  }

  lemma ThreadIsOk(s: State, t: nat)
    requires ThreadsOk(s) && t < |s.threads|
    ensures PhaseOk(s, t, s.threads[t])
  {
  }

  lemma ReenterKeeps(s: State, t: nat, id: nat)
    requires Inv(s) && t < |s.threads| && s.threads[t].nested == Some(id)
    ensures Awaits(s, t, id)
    ensures Inv(Reenter(s, t, id))
  {
    hide Stamp, ThreadsOk;
    ThreadIsOk(s, t);
    var n := Reenter(s, t, id);
    assert ClaimsOk(n) by {
      forall i: nat | i < |n.claims| ensures Settled(n, i) {
        assert Settled(s, i);
      }
    }
    assert FatesOk(n) by {
      forall other: nat | other < |n.fates| ensures FateOk(n, other) {
        assert FateOk(s, other);
      }
    }
    assert SlotsOk(n) by {
      forall i: nat | i < |n.slots| ensures SlotOk(n, i) {
        assert SlotOk(s, i);
      }
    }
    Assemble(s, n, t);
  }

  lemma ClaimKeeps(s: State, t: nat, id: nat)
    requires Inv(s) && t < |s.threads| && s.threads[t].phase == Seen(id) && s.threads[t].nested.None?
    ensures Awaits(s, t, id)
    ensures Inv(ClaimIndex(s, t, id))
  {
    hide Stamp, ThreadsOk;
    ThreadIsOk(s, t);
    var n := ClaimIndex(s, t, id);
    assert ClaimsOk(n) by {
      forall i: nat | i < |n.claims| ensures Settled(n, i) {
        if i < |s.claims| {
          assert Settled(s, i);
        }
      }
    }
    assert FatesOk(n) by {
      forall other: nat | other < |n.fates| ensures FateOk(n, other) {
        assert FateOk(s, other);
      }
    }
    assert SlotsOk(n) by {
      forall i: nat | i < |n.slots| ensures SlotOk(n, i) {
        assert SlotOk(s, i);
      }
    }
    assert Unpublished(n, s.claimed) by {
      if s.claimed < |s.slots| {
        assert SlotOk(s, s.claimed);
      }
    }
    Assemble(s, n, t);
  }

  lemma DropKeeps(s: State, t: nat)
    requires Inv(s) && t < |s.threads| && s.threads[t].phase.Dropping? && s.threads[t].nested.None?
    ensures Inv(Drop(s, t))
  {
    hide Stamp, ThreadsOk;
    ThreadIsOk(s, t);
    var n := Drop(s, t);
    assert ClaimsOk(n) by {
      forall i: nat | i < |n.claims| ensures Settled(n, i) {
        assert Settled(s, i);
      }
    }
    assert FatesOk(n) by {
      forall id: nat | id < |n.fates| ensures FateOk(n, id) {
        assert FateOk(s, id);
      }
    }
    assert SlotsOk(n) by {
      forall i: nat | i < |n.slots| ensures SlotOk(n, i) {
        assert SlotOk(s, i);
      }
    }
    Assemble(s, n, t);
  }

  lemma WriteKeeps(s: State, t: nat, id: nat, index: nat, done: nat)
    requires Inv(s) && t < |s.threads| && s.threads[t].phase == Writing(id, index, done)
    requires s.threads[t].nested.None? && done < EVENT_WORDS
    ensures Holds(s, t, id, index) && index < |s.slots|
    ensures Inv(WriteWord(s, t, id, index, done))
  {
    hide Stamp, ThreadsOk;
    ThreadIsOk(s, t);
    var n := WriteWord(s, t, id, index, done);
    assert ClaimsOk(n) by {
      forall i: nat | i < |n.claims| ensures Settled(n, i) {
        assert Settled(s, i);
      }
    }
    assert FatesOk(n) by {
      forall other: nat | other < |n.fates| ensures FateOk(n, other) {
        assert FateOk(s, other);
      }
    }
    assert SlotsOk(n) by {
      forall i: nat | i < |n.slots| ensures SlotOk(n, i) {
        assert SlotOk(s, i);
      }
    }
    OneMoreWord(s.slots[index].words, Stamp(s.calls[id], index), done);
    Assemble(s, n, t);
  }

  lemma OneMoreWord(words: Payload, event: Payload, done: nat)
    requires done < EVENT_WORDS && words[..done] == event[..done]
    ensures words[done := event[done]][..done + 1] == event[..done + 1]
  {
    assert words[done := event[done]][..done + 1] == words[..done] + [event[done]];
  }

  lemma PublishKeeps(s: State, t: nat, id: nat, index: nat)
    requires Inv(s) && t < |s.threads| && s.threads[t].phase == Writing(id, index, EVENT_WORDS)
    requires s.threads[t].nested.None?
    ensures Holds(s, t, id, index) && index < |s.slots|
    ensures Inv(Publish(s, t, id, index))
  {
    hide Stamp, ThreadsOk;
    ThreadIsOk(s, t);
    var n := Publish(s, t, id, index);
    var words, event := s.slots[index].words, Stamp(s.calls[id], index);
    assert words == event by {
      assert words == words[..EVENT_WORDS] && event == event[..EVENT_WORDS];
    }
    assert ClaimsOk(n) by {
      forall i: nat | i < |n.claims| ensures Settled(n, i) {
        assert Settled(s, i);
      }
    }
    assert FatesOk(n) by {
      forall other: nat | other < |n.fates| ensures FateOk(n, other) {
        assert FateOk(s, other);
      }
    }
    assert SlotsOk(n) by {
      forall i: nat | i < |n.slots| ensures SlotOk(n, i) {
        assert SlotOk(s, i);
      }
    }
    Assemble(s, n, t);
  }

  lemma CopyKeeps(s: State, t: nat)
    requires Inv(s) && t < |s.threads| && s.threads[t].phase.Copying? && s.threads[t].nested.None?
    ensures PhaseFits(s, s.threads[t])
    ensures Inv(To(s, t, CopyNext(s, s.threads[t].phase)))
  {
    ThreadIsOk(s, t);
    hide Stamp, ThreadsOk, ClaimsOk, FatesOk, SlotsOk;
    var p := s.threads[t].phase;
    var n := To(s, t, CopyNext(s, p));
    if |p.out| < p.count && p.current.Some? {
      var slot, words := s.slots[|p.out|], p.current.value;
      if |words| < EVENT_WORDS {
        assert words + [slot.words[|words|]] == slot.words[..|words| + 1];
      } else {
        assert words == slot.words;
      }
    }
    LocalStep(s, n, t);
  }

  /** The other steps of a recording thread touch nothing shared but the abort. */
  lemma QuietKeeps(s: State, t: nat)
    requires Inv(s) && t < |s.threads| && s.threads[t].nested.None?
    requires var p := s.threads[t].phase; p.Indexed? || p.Published? || p.InCallback?
    ensures PhaseFits(s, s.threads[t])
    ensures Inv(RecordStep(s, t))
  {
    hide Stamp, ThreadsOk, ClaimsOk, FatesOk, SlotsOk;
    ThreadIsOk(s, t);
    LocalStep(s, RecordStep(s, t), t);
  }

  lemma ReaderKeeps(s: State, t: nat)
    requires Inv(s) && t < |s.threads| && s.threads[t].nested.None?
    requires var p := s.threads[t].phase; IsReading(p) && !p.Copying?
    ensures PhaseFits(s, s.threads[t])
    ensures Inv(To(s, t, ReadNext(s, s.threads[t].phase)))
  {
    hide Stamp, ThreadsOk, ClaimsOk, FatesOk, SlotsOk;
    ThreadIsOk(s, t);
    LocalStep(s, To(s, t, ReadNext(s, s.threads[t].phase)), t);
  }

  lemma ContinueKeeps(s: State, t: nat)
    requires Inv(s) && t < |s.threads|
    ensures PhaseFits(s, s.threads[t])
    ensures Inv(Continue(s, t))
  {
    hide Inv, PhaseOk, Stamp;
    InvFits(s, t);
    var thread := s.threads[t];
    if thread.nested.Some? {
      ReenterKeeps(s, t, thread.nested.value);
    } else if thread.phase.Copying? {
      CopyKeeps(s, t);
    } else if IsReading(thread.phase) {
      ReaderKeeps(s, t);
    } else {
      match thread.phase
      case Idle =>
      case Seen(id) => ClaimKeeps(s, t, id);
      case Dropping(_, _) => DropKeeps(s, t);
      case Writing(id, index, done) =>
        if done < EVENT_WORDS {
          WriteKeeps(s, t, id, index, done);
        } else {
          PublishKeeps(s, t, id, index);
        }
      case _ => QuietKeeps(s, t);
    }
  }

  lemma StepKeeps(s: State, t: nat, a: Action)
    requires Inv(s) && t < |s.threads|
    ensures PhaseFits(s, s.threads[t])
    ensures Inv(Step(s, t, a))
  {
    hide Stamp, ThreadsOk, ClaimsOk, FatesOk, SlotsOk, Continue;
    InvFits(s, t);
    if !s.aborted {
      match a
      case Call(words) =>
        if CanCall(s.threads[t]) {
          BeginKeeps(s, t, words);
        }
      case Toggle(on) => ToggleKeeps(s, on);
      case Proceed => ContinueKeeps(s, t);
      case _ =>
        ThreadIsOk(s, t);
        if s.threads[t].phase.Idle? {
          LocalStep(s, Step(s, t, a), t);
        }
    }
  }

  lemma ToggleKeeps(s: State, on: bool)
    requires Inv(s)
    ensures Inv(s.(enabled := on))
  {
    hide Stamp, PhaseOk;
    var n := s.(enabled := on);
    forall t | 0 <= t < |s.threads| ensures PhaseOk(n, t, n.threads[t]) {
      FlagIsNotRead(s, on, t, s.threads[t]);
    }
    forall i: nat | i < |s.claims| ensures Settled(n, i) {
      assert Settled(s, i);
    }
    forall id: nat | id < |s.fates| ensures FateOk(n, id) {
      assert FateOk(s, id);
    }
    forall i: nat | i < |s.slots| ensures SlotOk(n, i) {
      assert SlotOk(s, i);
    }
  }

  lemma FlagIsNotRead(s: State, on: bool, t: nat, thread: Thread)
    ensures PhaseOk(s, t, thread) == PhaseOk(s.(enabled := on), t, thread)
  {
    hide Stamp;
  }

  /** One scheduled action; a thread number out of range schedules nothing. */
  ghost function Schedule(s: State, move: (nat, Action)): State
    requires Inv(s)
  {
    if move.0 < |s.threads| then
      InvFits(s, move.0);
      Step(s, move.0, move.1)
    else s
  }

  /** A whole interleaving. */
  ghost function Run(s: State, schedule: seq<(nat, Action)>): (r: State)
    requires Inv(s)
    ensures Inv(r)
    decreases |schedule|
  {
    if schedule == [] then s
    else
      ScheduleKeeps(s, schedule[0]);
      Run(Schedule(s, schedule[0]), schedule[1..])
  }

  lemma ScheduleKeeps(s: State, move: (nat, Action))
    requires Inv(s)
    ensures Inv(Schedule(s, move))
  {
    hide Inv, Step;
    if move.0 < |s.threads| {
      StepKeeps(s, move.0, move.1);
    }
  }
}
