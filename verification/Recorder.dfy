/**
 * The lock-free event recorder: any number of threads, one atomic action at a
 * time. An event is copied word by word, so that a torn copy is a possible
 * outcome unless the protocol rules it out.
 *
 * `calls`, `fates` and `claims` are history: no step looks at them.
 */
module Recorder {
  import opened Wrappers

  // -------------------------------------------------------------------------
  // Events as memory
  // -------------------------------------------------------------------------

  /** `rs_vm_event_v1` is 152 bytes: nineteen 64-bit words. */
  const EVENT_WORDS: nat := 19
  const SEQUENCE_WORD: nat := 1
  const VIOLATION_WORD: nat := 12
  const ABI_AND_SIZE: nat := 1 + 152 * 0x1_0000_0000

  type Payload = w: seq<nat> | |w| == EVENT_WORDS witness seq(EVENT_WORDS, i => 0)

  const BLANK: Payload := seq(EVENT_WORDS, i => 0)

  /** The event as the recorder stores it: version, size and sequence number filled in. */
  function Stamp(w: Payload, index: nat): Payload {
    w[0 := ABI_AND_SIZE][SEQUENCE_WORD := index + 1]
  }

  predicate HasViolation(w: Payload) {
    w[VIOLATION_WORD] / 0x1_0000_0000 != 0
  }

  // -------------------------------------------------------------------------
  // State
  // -------------------------------------------------------------------------

  datatype Mode = Record | Report | Assert

  datatype Slot = Slot(published: bool, words: Payload)

  datatype Status = Success | InvalidArgument | Busy

  /** The buffer a snapshot is given: none, or room for so many events. */
  datatype Room = Room(buffer: bool, capacity: nat)

  datatype Stats = Stats(complete: bool, recorded: nat, dropped: nat, reentrant: nat, nextSequence: nat)

  /** Where a thread stands, each phase ending with one access to shared memory. */
  datatype Phase =
    | Idle
    | Seen(id: nat)
    | Indexed(id: nat, index: nat)
    | Dropping(id: nat, index: nat)
    | Writing(id: nat, index: nat, done: nat)
    | Published(id: nat, index: nat)
    | InCallback(id: nat, index: nat)
    | SnapClaimed(room: Room, claimed: nat)
    | Copying(room: Room, count: nat, out: seq<Payload>, current: Option<seq<nat>>)
    | SnapDone(room: Room, status: Status, written: nat, out: seq<Payload>)
    | StatsClaimed(claimed: nat)
    | StatsDropped(claimed: nat, dropped: nat)
    | StatsDone(stats: Stats)

  /** `inside` is the thread-local re-entrancy guard; `nested` is a call made while it is set. */
  datatype Thread = Thread(phase: Phase, inside: bool, nested: Option<nat>)

  const IDLE_THREAD := Thread(Idle, false, None)

  /** What became of an enabled call. */
  datatype Fate = Pending(thread: nat) | Claimed(index: nat) | Reentered

  datatype Claim = Claim(id: nat, thread: nat)

  datatype State = State(
    enabled: bool,
    mode: Mode,
    hasCallback: bool,
    capacity: nat,
    claimed: nat,
    dropped: nat,
    reentrant: nat,
    slots: seq<Slot>,
    aborted: bool,
    threads: seq<Thread>,
    calls: seq<Payload>,
    fates: seq<Fate>,
    claims: seq<Claim>)

  function Initial(capacity: nat, threads: nat, mode: Mode, hasCallback: bool): State {
    State(true, mode, hasCallback, capacity, 0, 0, 0, seq(capacity, i => Slot(false, BLANK)), false,
          seq(threads, t => IDLE_THREAD), [], [], [])
  }

  // -------------------------------------------------------------------------
  // Atomic steps
  // -------------------------------------------------------------------------

  datatype Action = Call(words: Payload) | Toggle(on: bool) | Snapshot(room: Room) | GetStats | Proceed

  function Put(s: State, t: nat, thread: Thread): State
    requires t < |s.threads|
  {
    s.(threads := s.threads[t := thread])
  }

  function To(s: State, t: nat, phase: Phase): State
    requires t < |s.threads|
  {
    Put(s, t, s.threads[t].(phase := phase))
  }

  /** `record_event` reads the enabled flag. */
  function Begin(s: State, t: nat, words: Payload): State
    requires t < |s.threads|
  {
    var id, thread := |s.calls|, s.threads[t];
    if !s.enabled then s
    else
      Put(s.(calls := s.calls + [words], fates := s.fates + [Pending(t)]), t,
          if thread.inside then thread.(nested := Some(id)) else thread.(phase := Seen(id)))
  }

  predicate CanCall(thread: Thread) {
    if thread.inside then thread.nested.None? else thread.phase.Idle?
  }

  /** A call that finds the guard set only counts itself. */
  function Reenter(s: State, t: nat, id: nat): State
    requires t < |s.threads| && id < |s.fates|
  {
    Put(s.(reentrant := s.reentrant + 1, fates := s.fates[id := Reentered]), t, s.threads[t].(nested := None))
  }

  /** The fetch-and-add that hands out an index. */
  function ClaimIndex(s: State, t: nat, id: nat): State
    requires t < |s.threads| && id < |s.fates|
  {
    Put(s.(claimed := s.claimed + 1, fates := s.fates[id := Claimed(s.claimed)], claims := s.claims + [Claim(id, t)]),
        t,
        Thread(Indexed(id, s.claimed), true, None))
  }

  function CompareCapacity(s: State, t: nat, id: nat, index: nat): State
    requires t < |s.threads|
  {
    To(s, t, if index >= s.capacity then Dropping(id, index) else Writing(id, index, 0))
  }

  function Drop(s: State, t: nat): State
    requires t < |s.threads|
  {
    Put(s.(dropped := s.dropped + 1), t, IDLE_THREAD)
  }

  function WriteWord(s: State, t: nat, id: nat, index: nat, done: nat): State
    requires t < |s.threads| && id < |s.calls| && index < |s.slots| && done < EVENT_WORDS
  {
    var slot := s.slots[index];
    To(s.(slots := s.slots[index := slot.(words := slot.words[done := Stamp(s.calls[id], index)[done]])]), t,
       Writing(id, index, done + 1))
  }

  function Publish(s: State, t: nat, id: nat, index: nat): State
    requires t < |s.threads| && index < |s.slots|
  {
    To(s.(slots := s.slots[index := s.slots[index].(published := true)]), t, Published(id, index))
  }

  /** The guard is dropped; an asserting monitor then stops the process on a violation. */
  function Finish(s: State, t: nat, id: nat): State
    requires t < |s.threads| && id < |s.calls|
  {
    Put(s.(aborted := s.mode == Assert && HasViolation(s.calls[id])), t, IDLE_THREAD)
  }

  function Min(a: nat, b: nat): nat {
    if a < b then a else b
  }

  /** A snapshot reads the capacity, and so knows how many events there are to copy. */
  function SnapNext(s: State, room: Room, claimed: nat): (p: Phase)
    ensures p.Copying? || p.SnapDone?
  {
    var count := Min(claimed, s.capacity);
    if !room.buffer then SnapDone(room, if room.capacity == 0 then Success else InvalidArgument, count, [])
    else if room.capacity < count then SnapDone(room, InvalidArgument, count, [])
    else Copying(room, count, [], None)
  }

  /** A snapshot looks at the next slot's flag, or copies one more word of it. */
  function CopyNext(s: State, p: Phase): (n: Phase)
    requires p.Copying? && p.count <= |s.slots| && |p.out| <= p.count
    ensures n.Copying? || n.SnapDone?
  {
    if |p.out| == p.count then SnapDone(p.room, Success, p.count, p.out)
    else
      var slot := s.slots[|p.out|];
      match p.current
      case None => if slot.published then p.(current := Some([])) else SnapDone(p.room, Busy, p.count, p.out)
      case Some(words) =>
        if |words| < EVENT_WORDS then p.(current := Some(words + [slot.words[|words|]]))
        else if |words| == EVENT_WORDS then p.(out := p.out + [words], current := None)
        else p
  }

  function StatsReport(s: State, claimed: nat, dropped: nat): Stats {
    Stats(dropped == 0 && s.reentrant == 0, Min(claimed, s.capacity), dropped, s.reentrant, claimed + 1)
  }

  predicate IsReading(p: Phase) {
    p.SnapClaimed? || p.Copying? || p.SnapDone? || p.StatsClaimed? || p.StatsDropped? || p.StatsDone?
  }

  /** `rs_runtime_snapshot_v1` and `rs_runtime_get_stats_v1`: one load from shared memory, nothing stored. */
  function ReadNext(s: State, p: Phase): (n: Phase)
    requires IsReading(p) && (p.Copying? ==> p.count <= |s.slots| && |p.out| <= p.count)
    ensures IsReading(n) || n.Idle?
  {
    match p
    case SnapClaimed(room, claimed) => SnapNext(s, room, claimed)
    case Copying(_, _, _, _) => CopyNext(s, p)
    case StatsClaimed(claimed) => StatsDropped(claimed, s.dropped)
    case StatsDropped(claimed, dropped) => StatsDone(StatsReport(s, claimed, dropped))
    case _ => Idle
  }

  /** Everything a phase names exists; every reachable state is like this. */
  predicate PhaseFits(s: State, thread: Thread) {
    && (thread.nested.Some? ==> thread.nested.value < |s.fates|)
    && |s.fates| == |s.calls|
    && match thread.phase
       case Seen(id) => id < |s.calls|
       case Writing(id, index, done) => id < |s.calls| && index < |s.slots| && done <= EVENT_WORDS
       case Published(id, index) => id < |s.calls|
       case InCallback(id, index) => id < |s.calls|
       case Copying(_, count, out, current) => count <= |s.slots| && |out| <= count
       case _ => true
  }

  /** `record_event`, from the re-entrancy check on. */
  function RecordStep(s: State, t: nat): State
    requires t < |s.threads| && PhaseFits(s, s.threads[t])
  {
    match s.threads[t].phase
    case Seen(id) => ClaimIndex(s, t, id)
    case Indexed(id, index) => CompareCapacity(s, t, id, index)
    case Dropping(_, _) => Drop(s, t)
    case Writing(id, index, done) => if done < EVENT_WORDS then WriteWord(s, t, id, index, done)
        else Publish(s, t, id, index)
    case Published(id, index) =>
      if s.mode == Report && s.hasCallback then To(s, t, InCallback(id, index)) else Finish(s, t, id)
    case InCallback(id, _) => Finish(s, t, id)
    case _ => s
  }

  function Continue(s: State, t: nat): State
    requires t < |s.threads| && PhaseFits(s, s.threads[t])
  {
    var thread := s.threads[t];
    if thread.nested.Some? then Reenter(s, t, thread.nested.value)
    else if IsReading(thread.phase) then To(s, t, ReadNext(s, thread.phase))
    else RecordStep(s, t)
  }

  /** One action by thread `t`; an action the thread is in no position to take changes nothing. */
  function Step(s: State, t: nat, a: Action): State
    requires t < |s.threads| && PhaseFits(s, s.threads[t])
  {
    var thread := s.threads[t];
    if s.aborted then s
    else
      match a
      case Call(words) => if CanCall(thread) then Begin(s, t, words) else s
      case Toggle(on) => s.(enabled := on)
      case Snapshot(room) => if thread.phase.Idle? then To(s, t, SnapClaimed(room, s.claimed)) else s
      case GetStats => if thread.phase.Idle? then To(s, t, StatsClaimed(s.claimed)) else s
      case Proceed => Continue(s, t)
  }
}
