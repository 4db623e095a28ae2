/**
 * Replaying a trace without touching the operating system.
 *
 * `ByteStep` and `ByteRun` are the reference meaning: the same events run on a
 * plain address-to-cell map, with each rejection stated byte by byte.
 * `Replayer.Replay` is the source's loop over the sorted segment list; it is
 * proved to accept, reject and report exactly as the reference does.
 */
module Replay {
  import opened Words
  import opened Wrappers
  import opened TraceModel
  import opened Segments

  datatype Violation = ExactAddressRelocated | InvalidExpectation

  datatype ReplayResult = ReplayResult(reproduced: bool, eventCount: nat, violations: seq<Violation>)

  datatype ReplayError =
    | SequenceGap
    | BadContract(error: ContractError)
    | ViolationDoesNotReplay
    | InvalidMmapRange
    | MmapOverlaps
    | ProtectOutsideLiveMemory
    | InvalidMunmapRange
    | ReserveOverlapsOrOverflows
    | CommitOutsideReservation
    | DecommitOutsideCommitted
    | ReleaseNotAtBase
    | ResetOutsideCommitted
    | UnsupportedLifecycle

  /** `add_size`: the range is non-empty and its end is a 64-bit address. */
  predicate Fits(start: u64, size: u64) {
    size != 0 && start + size < U64_LIMIT
  }

  // -------------------------------------------------------------------------
  // Reference: one event on the byte map
  // -------------------------------------------------------------------------

  /** What the bytes must look like for a successful event to be believed. */
  datatype Guard =
    | Always
    | Unmapped(start: int, end: int)
    | Mapped(start: int, end: int)
    | Committed(start: int, end: int)
    | LiveBase(base: int)
    | Never

  /** What a believed event does to the bytes. */
  datatype Effect =
    | NoChange
    | Mapping(start: int, end: int, cell: Cell)
    | Unmapping(start: int, end: int)
    | Restating(start: int, end: int, committed: bool, protection: u32)
    | Releasing(base: int)

  function GuardOf(e: Event): Guard {
    var s, t, op := e.effectiveAddress, e.effectiveAddress + e.effectiveSize, e.operation;
    if op == WINDOWS_RELEASE then LiveBase(s)
    else if op == WINDOWS_ALLOCATE_OTHER || !Fits(s, e.effectiveSize) then Never
    else if op == POSIX_MUNMAP || (op == POSIX_MMAP && FlagsOf(e.semanticFlags).replace) then Always
    else if op == POSIX_MMAP || op == WINDOWS_RESERVE then Unmapped(s, t)
    else if op == WINDOWS_COMMIT then Mapped(s, t)
    else Committed(s, t)
  }

  function EffectOf(e: Event): Effect {
    var s, t, op := e.effectiveAddress, e.effectiveAddress + e.effectiveSize, e.operation;
    if op == POSIX_MMAP then
      Mapping(s, t, Cell(true, e.requestedProtection, 0))
    else if op == WINDOWS_RESERVE then
      Mapping(s, t, Cell(FlagsOf(e.semanticFlags).commit, e.requestedProtection, s))
    else if op == POSIX_MUNMAP then
      Unmapping(s, t)
    else if op == WINDOWS_RELEASE then
      Releasing(s)
    else if op == WINDOWS_DECOMMIT then
      Restating(s, t, false, 0)
    else if op == POSIX_MPROTECT || op == WINDOWS_PROTECT || op == WINDOWS_COMMIT then
      Restating(s, t, true, e.requestedProtection)
    else
      NoChange
  }

  function ErrorOf(e: Event): ReplayError {
    var op := e.operation;
    if op == POSIX_MMAP then (if Fits(e.effectiveAddress, e.effectiveSize) then MmapOverlaps else InvalidMmapRange)
    else if op == POSIX_MUNMAP then InvalidMunmapRange
    else if op == WINDOWS_RESERVE then ReserveOverlapsOrOverflows
    else if op == WINDOWS_COMMIT then CommitOutsideReservation
    else if op == WINDOWS_DECOMMIT then DecommitOutsideCommitted
    else if op == WINDOWS_RELEASE then ReleaseNotAtBase
    else if op == WINDOWS_RESET || op == WINDOWS_RESET_UNDO then ResetOutsideCommitted
    else if op == WINDOWS_ALLOCATE_OTHER then UnsupportedLifecycle
    else ProtectOutsideLiveMemory
  }

  ghost predicate Holds(g: Guard, m: ByteMap) {
    match g
    case Always => true
    case Unmapped(s, t) => !AnyMapped(m, s, t)
    case Mapped(s, t) => AllMapped(m, s, t, false)
    case Committed(s, t) => AllMapped(m, s, t, true)
    case LiveBase(b) => BaseInUse(m, b)
    case Never => false
  }

  ghost function After(f: Effect, m: ByteMap): ByteMap {
    match f
    case NoChange => m
    case Mapping(s, t, cell) => Fill(m, s, t, cell)
    case Unmapping(s, t) => Erase(m, s, t)
    case Restating(s, t, committed, protection) => Restate(m, s, t, committed, protection)
    case Releasing(b) => EraseBase(m, b)
  }

  ghost function ByteStep(m: ByteMap, e: Event): Result<ByteMap, ReplayError> {
    if e.success == 0 then Ok(m)
    else if Holds(GuardOf(e), m) then Ok(After(EffectOf(e), m))
    else Err(ErrorOf(e))
  }

  /** What is checked before an event is allowed to change anything. */
  function Admission(h: Header, e: Event, expectedSequence: nat): Option<ReplayError> {
    if e.sequence != expectedSequence then Some(SequenceGap)
    else if CheckContract(e, h).Some? then Some(BadContract(CheckContract(e, h).value))
    else if e.violation != ExpectedViolation(e) then Some(ViolationDoesNotReplay)
    else None
  }

  function Reported(e: Event): seq<Violation> {
    if e.violation == VIOLATION_NONE then []
    else if e.violation == VIOLATION_RELOCATED then [ExactAddressRelocated]
    else [InvalidExpectation]
  }

  type RunState = Result<(ByteMap, seq<Violation>), ReplayError>

  ghost function RunStep(h: Header, before: RunState, e: Event, expectedSequence: nat): RunState {
    if before.Err? then before
    else if Admission(h, e, expectedSequence).Some? then Err(Admission(h, e, expectedSequence).value)
    else
      match ByteStep(before.value.0, e)
      case Err(error) => Err(error)
      case Ok(m) => Ok((m, before.value.1 + Reported(e)))
  }

  /** The byte map and the violation list after the first `n` events, or the first rejection. */
  ghost function ByteRun(h: Header, events: seq<Event>, n: nat): RunState
    requires n <= |events|
  {
    if n == 0 then Ok((map[], [])) else RunStep(h, ByteRun(h, events, n - 1), events[n - 1], n)
  }

  /** Once a run has rejected, no later event changes the verdict. */
  lemma {:induction false} RejectionIsFinal(h: Header, events: seq<Event>, n: nat, k: nat)
    requires n <= k <= |events| && ByteRun(h, events, n).Err?
    ensures ByteRun(h, events, k) == ByteRun(h, events, n)
    decreases k - n
  {
    if n == k {
    } else {
      RejectionIsFinal(h, events, n + 1, k);
    }
  }

  /** A list-level outcome and the cells it leaves agree with a byte-level step. */
  ghost predicate Agrees(r: Result<(), ReplayError>, cells: ByteMap, step: Result<ByteMap, ReplayError>) {
    match step
    case Ok(m) => r.Ok? && cells == m
    case Err(error) => r == Err(error)
  }

  // -------------------------------------------------------------------------
  // The replayer
  // -------------------------------------------------------------------------

  class Replayer {
    const table: SegmentTable
    var violations: seq<Violation>

    ghost predicate Valid()
      reads this, table
    {
      table.Valid()
    }

    constructor ()
      ensures Valid() && fresh(table)
      ensures table.segments == [] && table.cells == map[] && violations == []
    {
      table := new SegmentTable();
      violations := [];
    }

    method ApplyMmap(e: Event) returns (r: Result<(), ReplayError>)
      requires Valid() && e.success != 0 && e.operation == POSIX_MMAP
      modifies table
      ensures Valid()
      ensures Agrees(r, table.cells, ByteStep(old(table.cells), e))
      ensures |table.segments| <= |old(table.segments)| + 2
    {
      hide Ordered, Represents;
      var s := e.effectiveAddress;
      if !Fits(s, e.effectiveSize) {
        return Err(ErrorOf(e));
      }
      var t: u64 := s + e.effectiveSize;
      if FlagsOf(e.semanticFlags).replace {
        table.Replace(Segment(s, t, e.requestedProtection, true, 0));
      } else {
        var overlap := table.Overlaps(s, t);
        if overlap {
          return Err(ErrorOf(e));
        }
        table.Push(Segment(s, t, e.requestedProtection, true, 0));
      }
      return Ok(());
    }

    method ApplyReserve(e: Event) returns (r: Result<(), ReplayError>)
      requires Valid() && e.success != 0 && e.operation == WINDOWS_RESERVE
      modifies table
      ensures Valid()
      ensures Agrees(r, table.cells, ByteStep(old(table.cells), e))
      ensures |table.segments| <= |old(table.segments)| + 2
    {
      hide Ordered, Represents;
      var s := e.effectiveAddress;
      if !Fits(s, e.effectiveSize) {
        return Err(ErrorOf(e));
      }
      var t: u64 := s + e.effectiveSize;
      var overlap := table.Overlaps(s, t);
      if overlap {
        return Err(ErrorOf(e));
      }
      table.Push(Segment(s, t, e.requestedProtection, FlagsOf(e.semanticFlags).commit, s));
      return Ok(());
    }

    /** Protect, commit, decommit, reset and reset-undo: all need a covered range. */
    method ApplyCovered(e: Event) returns (r: Result<(), ReplayError>)
      requires Valid() && e.success != 0
      requires e.operation == POSIX_MPROTECT || WINDOWS_COMMIT <= e.operation <= WINDOWS_RESET_UNDO
      requires e.operation != WINDOWS_RELEASE
      modifies table
      ensures Valid()
      ensures Agrees(r, table.cells, ByteStep(old(table.cells), e))
      ensures |table.segments| <= |old(table.segments)| + 2
    {
      hide Ordered, Represents;
      var op, s := e.operation, e.effectiveAddress;
      if !Fits(s, e.effectiveSize) {
        return Err(ErrorOf(e));
      }
      var t: u64 := s + e.effectiveSize;
      var ok := table.Covered(s, t, op != WINDOWS_COMMIT);
      if !ok {
        return Err(ErrorOf(e));
      }
      if op == WINDOWS_DECOMMIT {
        table.SetRange(s, t, false, 0);
      } else if op != WINDOWS_RESET && op != WINDOWS_RESET_UNDO {
        table.SetRange(s, t, true, e.requestedProtection);
      }
      return Ok(());
    }

    /** The source's `switch`, for one successful event. */
    method Apply(e: Event) returns (r: Result<(), ReplayError>)
      requires Valid() && e.success != 0
      requires POSIX_MMAP <= e.operation <= WINDOWS_ALLOCATE_OTHER
      modifies table
      ensures Valid()
      ensures Agrees(r, table.cells, ByteStep(old(table.cells), e))
      ensures |table.segments| <= |old(table.segments)| + 2
    {
      var op, s := e.operation, e.effectiveAddress;
      if op == POSIX_MMAP {
        r := ApplyMmap(e);
      } else if op == WINDOWS_RESERVE {
        r := ApplyReserve(e);
      } else if op == POSIX_MUNMAP {
        if !Fits(s, e.effectiveSize) {
          return Err(ErrorOf(e));
        }
        table.EraseRange(s, s + e.effectiveSize);
        r := Ok(());
      } else if op == WINDOWS_RELEASE {
        var found := table.ReleaseWindows(s);
        r := if found then Ok(()) else Err(ErrorOf(e));
      } else if op == WINDOWS_ALLOCATE_OTHER {
        r := Err(ErrorOf(e));
      } else {
        r := ApplyCovered(e);
      }
    }

    /** One turn of the source's loop. */
    method Consume(h: Header, e: Event, expectedSequence: nat) returns (r: Result<(), ReplayError>)
      requires Valid()
      modifies this, table
      ensures Valid()
      ensures match RunStep(h, Ok((old(table.cells), old(violations))), e, expectedSequence)
              case Err(error) => r == Err(error)
              case Ok((m, v)) => r.Ok? && table.cells == m && violations == v
      ensures |table.segments| <= |old(table.segments)| + 2
    {
      var admission := Admission(h, e, expectedSequence);
      if admission.Some? {
        return Err(admission.value);
      }
      violations := violations + Reported(e);
      r := Ok(());
      if e.success != 0 {
        r := Apply(e);
      }
    }

    method Replay(trace: Trace) returns (r: Result<ReplayResult, ReplayError>)
      requires Valid() && table.segments == [] && table.cells == map[] && violations == []
      modifies this, table
      ensures Valid()
      ensures match ByteRun(trace.header, trace.events, |trace.events|)
              case Err(error) => r == Err(error)
              case Ok((m, v)) => r == Ok(ReplayResult(true, |trace.events|, v)) && table.cells == m
      ensures |table.segments| <= 2 * |trace.events|
    {
      hide RunStep, Ordered, Represents;
      var expectedSequence := 1;
      for i := 0 to |trace.events|
        invariant Valid() && expectedSequence == i + 1
        invariant ByteRun(trace.header, trace.events, i) == Ok((table.cells, violations))
        invariant |table.segments| <= 2 * i
      {
        var step := Consume(trace.header, trace.events[i], expectedSequence);
        expectedSequence := expectedSequence + 1;
        if step.Err? {
          RejectionIsFinal(trace.header, trace.events, i + 1, |trace.events|);
          return Err(step.error);
        }
      }
      r := Ok(ReplayResult(true, |trace.events|, violations));
    }
  }

  // -------------------------------------------------------------------------
  // Windows reservations
  // -------------------------------------------------------------------------

  /** Live reservations, base to end, after one accepted event: history alone decides them. */
  function LiveStep(live: map<int, int>, e: Event): map<int, int> {
    if e.success != 0 && e.operation == WINDOWS_RESERVE then
        live[e.effectiveAddress := e.effectiveAddress + e.effectiveSize]
    else if e.success != 0 && e.operation == WINDOWS_RELEASE then live - {e.effectiveAddress as int}
    else live
  }

  function Live(events: seq<Event>, n: nat): map<int, int>
    requires n <= |events|
  {
    if n == 0 then map[] else LiveStep(Live(events, n - 1), events[n - 1])
  }

  /** The cells carrying base `b` are exactly the bytes reserved at `b`, for every live `b` and no other. */
  ghost predicate Tiled(m: ByteMap, live: map<int, int>) {
    && (forall a :: a in m ==> m[a].base in live && Within(a, m[a].base, live[m[a].base]))
    && (forall b :: b in live ==> 0 <= b < live[b] < U64_LIMIT)
    && (forall b, a :: b in live && Within(a, b, live[b]) ==> a in m && m[a].base == b)
  }

  lemma ReserveKeepsTiling(m: ByteMap, live: map<int, int>, s: u64, t: int, cell: Cell)
    requires Tiled(m, live) && s < t < U64_LIMIT && !AnyMapped(m, s, t) && cell.base == s
    ensures Tiled(Fill(m, s, t, cell), live[s as int := t])
  {
    var m', live' := Fill(m, s, t, cell), live[s as int := t];
    assert Within(s, s, t);
    if s as int in live {
      assert Within(s, s, live[s as int]);
      assert false;
    }
    forall b, a | b in live' && Within(a, b, live'[b]) ensures a in m' && m'[a].base == b {
      if b != s as int {
        assert b in live && a in m && !Within(a, s, t);
      }
    }
    forall a | a in m' ensures m'[a].base in live' && Within(a, m'[a].base, live'[m'[a].base]) {
      if !Within(a, s, t) {
        assert a in m;
      }
    }
  }

  lemma ReleaseKeepsTiling(m: ByteMap, live: map<int, int>, s: int)
    requires Tiled(m, live)
    ensures Tiled(EraseBase(m, s), live - {s})
  {
  }

  lemma RestateKeepsTiling(m: ByteMap, live: map<int, int>, s: int, t: int, committed: bool, protection: u32)
    requires Tiled(m, live)
    ensures Tiled(Restate(m, s, t, committed, protection), live)
  {
  }

  lemma StepKeepsTiling(m: ByteMap, live: map<int, int>, e: Event)
    requires Tiled(m, live) && WINDOWS_RESERVE <= e.operation <= WINDOWS_ALLOCATE_OTHER && ByteStep(m, e).Ok?
    ensures Tiled(ByteStep(m, e).value, LiveStep(live, e))
  {
    if e.success != 0 {
      match EffectOf(e)
      case Mapping(s, t, cell) => ReserveKeepsTiling(m, live, e.effectiveAddress, t, cell);
      case Restating(s, t, committed, protection) => RestateKeepsTiling(m, live, s, t, committed, protection);
      case Releasing(b) => ReleaseKeepsTiling(m, live, b);
      case NoChange =>
      case Unmapping(s, t) =>
    }
  }

  lemma NothingIsTiled()
    ensures Tiled(map[], map[])
  {
  }

  lemma AcceptedStep(h: Header, before: RunState, e: Event, expectedSequence: nat)
    requires h.platform != "posix" && RunStep(h, before, e, expectedSequence).Ok?
    ensures before.Ok? && ByteStep(before.value.0, e).Ok?
    ensures RunStep(h, before, e, expectedSequence).value.0 == ByteStep(before.value.0, e).value
    ensures WINDOWS_RESERVE <= e.operation <= WINDOWS_ALLOCATE_OTHER
  {
    hide ByteStep;
  }

  /**
   * Every accepted Windows trace: at every point the bytes of each live
   * reservation are exactly its reserved interval, however commits, decommits
   * and protection changes have cut it up.
   */
  lemma {:induction false} ReservationsStayTiled(h: Header, events: seq<Event>, n: nat)
    requires n <= |events| && h.platform != "posix" && ByteRun(h, events, n).Ok?
    ensures Tiled(ByteRun(h, events, n).value.0, Live(events, n))
  {
    hide Tiled, RunStep, LiveStep, ByteStep;
    if n == 0 {
      assert Tiled(map[], map[]) by { NothingIsTiled(); }
    } else {
      AcceptedStep(h, ByteRun(h, events, n - 1), events[n - 1], n);
      ReservationsStayTiled(h, events, n - 1);
      StepKeepsTiling(ByteRun(h, events, n - 1).value.0, Live(events, n - 1), events[n - 1]);
    }
  }

  /** Read off the segment list: segments carrying base `b` tile `[b, live[b])` and nothing else. */
  lemma SegmentsTileReservations(segs: seq<Segment>, m: ByteMap, live: map<int, int>)
    requires Ordered(segs) && Represents(segs, m) && Tiled(m, live)
    ensures forall i :: 0 <= i < |segs| ==>
              segs[i].reservationBase as int in live
              && segs[i].reservationBase <= segs[i].start < segs[i].end <= live[segs[i].reservationBase as int]
    ensures forall b, a :: b in live && Within(a, b, live[b]) ==>
              exists i :: 0 <= i < |segs| && segs[i].reservationBase == b && In(segs[i], a)
  {
    forall i | 0 <= i < |segs|
      ensures segs[i].reservationBase as int in live
      ensures segs[i].reservationBase <= segs[i].start < segs[i].end <= live[segs[i].reservationBase as int]
    {
      var first: int, last: int := segs[i].start, segs[i].end - 1;
      assert In(segs[i], first) && In(segs[i], last);
      assert first in m && last in m && m[first] == m[last] == CellOf(segs[i]);
    }
    forall b, a | b in live && Within(a, b, live[b])
      ensures exists i :: 0 <= i < |segs| && segs[i].reservationBase == b && In(segs[i], a)
    {
      assert a in m;
      var i :| 0 <= i < |segs| && In(segs[i], a);
    }
  }

  /** Two live reservations never share a byte, so never a base either. */
  lemma LiveReservationsAreDisjoint(m: ByteMap, live: map<int, int>, b: int, c: int)
    requires Tiled(m, live) && b in live && c in live && b != c
    ensures live[b] <= c || live[c] <= b
  {
    assert Within(b, b, live[b]) && Within(c, c, live[c]);
    assert m[b].base == b && m[c].base == c;
    assert !Within(c, b, live[b]) && !Within(b, c, live[c]);
  }

  /**
   * A release, anywhere in an accepted Windows trace, frees exactly the
   * interval reserved at its address and leaves every other byte as it was;
   * it is accepted exactly when that address is the base of a live reservation.
   */
  lemma ReleaseFreesItsReservation(h: Header, events: seq<Event>, n: nat, e: Event)
    requires n <= |events| && h.platform != "posix" && ByteRun(h, events, n).Ok?
    requires e.operation == WINDOWS_RELEASE && e.success != 0
    ensures ByteStep(ByteRun(h, events, n).value.0, e).Ok? <==> e.effectiveAddress as int in Live(events, n)
    ensures e.effectiveAddress as int in Live(events, n) ==>
              var m := ByteRun(h, events, n).value.0;
              ByteStep(m, e).value == Erase(m, e.effectiveAddress, Live(events, n)[e.effectiveAddress as int])
  {
    hide RunStep, LiveStep;
    ReservationsStayTiled(h, events, n);
    var m, live, b: int := ByteRun(h, events, n).value.0, Live(events, n), e.effectiveAddress;
    if b in live {
      assert Within(b, b, live[b]);
      assert b in m && m[b].base == b;
      assert EraseBase(m, b) == Erase(m, b, live[b]);
    }
  }

  /** A POSIX trace never holds anything but committed memory outside every reservation. */
  lemma {:induction false} PosixCellsAreCommitted(h: Header, events: seq<Event>, n: nat)
    requires n <= |events| && h.platform == "posix" && ByteRun(h, events, n).Ok?
    ensures forall a :: a in ByteRun(h, events, n).value.0 ==>
              var c := ByteRun(h, events, n).value.0[a]; c.committed && c.base == 0
  {
    if n == 0 {
    } else {
      PosixCellsAreCommitted(h, events, n - 1);
    }
  }
}
