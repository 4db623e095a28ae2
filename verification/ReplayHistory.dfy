/**
 * What an accepted trace says about every byte, read off the events alone.
 *
 * Nothing here looks at a map or a list of segments: a byte is what the last
 * event about it made of it, and whether an event is believed follows from
 * the events before it.
 */
module ReplayHistory {
  import opened Words
  import opened Wrappers
  import opened TraceModel
  import opened Segments
  import opened Replay

  // -------------------------------------------------------------------------
  // The history of a byte
  // -------------------------------------------------------------------------

  /** The event succeeded on a range that holds the byte. */
  predicate Touches(e: Event, a: int) {
    e.success != 0 && e.effectiveAddress <= a < e.effectiveAddress + e.effectiveSize
  }

  predicate IsProtect(op: u32) {
    op == POSIX_MPROTECT || op == WINDOWS_PROTECT
  }

  /** The last reservation made over the byte. */
  function Reserver(events: seq<Event>, n: nat, a: int): (r: Option<nat>)
    requires n <= |events|
    ensures r.Some? ==> r.value < n && events[r.value].operation == WINDOWS_RESERVE && Touches(events[r.value], a)
    ensures forall j :: (if r.Some? then r.value else -1) < j < n ==>
              !(events[j].operation == WINDOWS_RESERVE && Touches(events[j], a))
  {
    if n == 0 then None
    else if events[n - 1].operation == WINDOWS_RESERVE && Touches(events[n - 1], a) then Some(n - 1)
    else Reserver(events, n - 1, a)
  }

  /** Event `i` says something about the byte: it touches it, or releases the reservation made over it. */
  predicate Decides(events: seq<Event>, i: nat, a: int)
    requires i < |events|
  {
    var e, op := events[i], events[i].operation;
    || (Touches(e, a)
        && (op == POSIX_MMAP || op == POSIX_MUNMAP || op == WINDOWS_RESERVE || op == WINDOWS_COMMIT
            || op == WINDOWS_DECOMMIT || IsProtect(op)))
    || (e.success != 0 && op == WINDOWS_RELEASE && Reserver(events, i, a).Some?
        && events[Reserver(events, i, a).value].effectiveAddress == e.effectiveAddress)
  }

  function LastWord(events: seq<Event>, n: nat, a: int): (r: Option<nat>)
    requires n <= |events|
    ensures r.Some? ==> r.value < n && Decides(events, r.value, a)
    ensures forall j :: (if r.Some? then r.value else -1) < j < n ==> !Decides(events, j, a)
  {
    if n == 0 then None
    else if Decides(events, n - 1, a) then Some(n - 1)
    else LastWord(events, n - 1, a)
  }

  /** The last word on the byte does not free it. */
  predicate IsLive(events: seq<Event>, n: nat, a: int)
    requires n <= |events|
  {
    var w := LastWord(events, n, a);
    w.Some? && events[w.value].operation != POSIX_MUNMAP && events[w.value].operation != WINDOWS_RELEASE
  }

  /** The last word on the byte is a mapping, a commit, a protection change, or a reservation that commits. */
  predicate IsCommitted(events: seq<Event>, n: nat, a: int)
    requires n <= |events|
  {
    var w := LastWord(events, n, a);
    w.Some?
    && var e := events[w.value];
       || e.operation == POSIX_MMAP || e.operation == WINDOWS_COMMIT || IsProtect(e.operation)
       || (e.operation == WINDOWS_RESERVE && e.semanticFlags / 4 % 2 == 1)
  }

  /** The protection asked for by the last word on a live byte; none once it is decommitted. */
  function ProtectionOf(events: seq<Event>, n: nat, a: int): u32
    requires n <= |events| && IsLive(events, n, a)
  {
    var e := events[LastWord(events, n, a).value];
    if e.operation == WINDOWS_DECOMMIT then 0 else e.requestedProtection
  }

  // -------------------------------------------------------------------------
  // The byte map is that history
  // -------------------------------------------------------------------------

  /** A cell says what the history says; on Windows it also names the reservation it belongs to. */
  ghost predicate Tells(h: Header, events: seq<Event>, n: nat, m: ByteMap, a: int)
    requires n <= |events|
  {
    && (a in m <==> IsLive(events, n, a))
    && (a in m && IsLive(events, n, a) ==>
          && m[a].committed == IsCommitted(events, n, a)
          && m[a].protection == ProtectionOf(events, n, a)
          && if h.platform == "posix" then Reserver(events, n, a).None? && m[a].base == 0
             else Reserver(events, n, a).Some? && m[a].base == events[Reserver(events, n, a).value].effectiveAddress)
  }

  lemma PlatformOperations(h: Header, before: RunState, e: Event, expectedSequence: nat)
    requires RunStep(h, before, e, expectedSequence).Ok?
    ensures before.Ok? && ByteStep(before.value.0, e).Ok?
    ensures RunStep(h, before, e, expectedSequence).value.0 == ByteStep(before.value.0, e).value
    ensures h.platform == "posix" ==> POSIX_MMAP <= e.operation <= POSIX_MUNMAP
    ensures h.platform != "posix" ==> WINDOWS_RESERVE <= e.operation <= WINDOWS_ALLOCATE_OTHER
  {
    hide ByteStep;
  }

  /** One event: what it does not decide stays, and what it decides is as it says. */
  lemma StepTells(h: Header, events: seq<Event>, n: nat, m: ByteMap, a: int)
    requires n < |events| && Tells(h, events, n, m, a) && ByteStep(m, events[n]).Ok?
    requires h.platform == "posix" ==> POSIX_MMAP <= events[n].operation <= POSIX_MUNMAP
    requires h.platform == "posix" ==> Reserver(events, n, a).None?
    requires h.platform != "posix" ==> WINDOWS_RESERVE <= events[n].operation <= WINDOWS_ALLOCATE_OTHER
    ensures Tells(h, events, n + 1, ByteStep(m, events[n]).value, a)
  {
    var e := events[n];
    assert Within(a, e.effectiveAddress, e.effectiveAddress + e.effectiveSize) <==>
           e.effectiveAddress <= a < e.effectiveAddress + e.effectiveSize;
  }

  lemma {:induction false} PosixNeverReserves(h: Header, events: seq<Event>, n: nat, a: int)
    requires n <= |events| && h.platform == "posix" && ByteRun(h, events, n).Ok?
    ensures Reserver(events, n, a).None?
  {
    hide RunStep;
    if n > 0 {
      PlatformOperations(h, ByteRun(h, events, n - 1), events[n - 1], n);
      PosixNeverReserves(h, events, n - 1, a);
    }
  }

  /**
   * At every point of every accepted trace, on either platform: a byte is
   * mapped, committed and protected as the last word on it says.
   */
  lemma {:induction false} BytesTellTheirHistory(h: Header, events: seq<Event>, n: nat, a: int)
    requires n <= |events| && ByteRun(h, events, n).Ok?
    ensures Tells(h, events, n, ByteRun(h, events, n).value.0, a)
  {
    hide RunStep, ByteStep, Tells;
    if n == 0 {
      assert Tells(h, events, 0, map[], a) by { NothingTells(h, events, a); }
    } else {
      var before := ByteRun(h, events, n - 1);
      PlatformOperations(h, before, events[n - 1], n);
      BytesTellTheirHistory(h, events, n - 1, a);
      if h.platform == "posix" {
        PosixNeverReserves(h, events, n - 1, a);
      }
      StepTells(h, events, n - 1, before.value.0, a);
    }
  }

  lemma NothingTells(h: Header, events: seq<Event>, a: int)
    ensures Tells(h, events, 0, map[], a)
  {
  }

  // -------------------------------------------------------------------------
  // Which events are believed
  // -------------------------------------------------------------------------

  /** The last successful reserve or release at this address. */
  function LastAt(events: seq<Event>, n: nat, b: int): (r: Option<nat>)
    requires n <= |events|
    ensures r.Some? ==> r.value < n && events[r.value].success != 0 && events[r.value].effectiveAddress == b
    ensures r.Some? ==> events[r.value].operation == WINDOWS_RESERVE || events[r.value].operation == WINDOWS_RELEASE
  {
    if n == 0 then None
    else
      var e := events[n - 1];
      if e.success != 0 && e.effectiveAddress == b && (e.operation == WINDOWS_RESERVE || e.operation == WINDOWS_RELEASE)
      then Some(n - 1)
      else LastAt(events, n - 1, b)
  }

  /** A reservation made at this address has not been released since. */
  predicate IsBase(events: seq<Event>, n: nat, b: int)
    requires n <= |events|
  {
    LastAt(events, n, b).Some? && events[LastAt(events, n, b).value].operation == WINDOWS_RESERVE
  }

  /** Of the bytes event `n` is about: none is live, all are live, all are committed. */
  ghost predicate NoneLive(events: seq<Event>, n: nat)
    requires n < |events|
  {
    forall a :: Touches(events[n], a) ==> !IsLive(events, n, a)
  }

  ghost predicate AllLive(events: seq<Event>, n: nat)
    requires n < |events|
  {
    forall a :: Touches(events[n], a) ==> IsLive(events, n, a)
  }

  ghost predicate AllCommitted(events: seq<Event>, n: nat)
    requires n < |events|
  {
    forall a :: Touches(events[n], a) ==> IsCommitted(events, n, a)
  }

  predicate HasRange(e: Event) {
    e.effectiveSize > 0 && e.effectiveAddress + e.effectiveSize < U64_LIMIT
  }

  /** What the earlier events must have left for event `n` to be believed. */
  ghost predicate IsBelievable(events: seq<Event>, n: nat)
    requires n < |events|
  {
    var e, op := events[n], events[n].operation;
    && (op == POSIX_MMAP ==> HasRange(e) && (e.semanticFlags % 2 == 1 || NoneLive(events, n)))
    && (op == POSIX_MUNMAP ==> HasRange(e))
    && (op == WINDOWS_RESERVE ==> HasRange(e) && NoneLive(events, n))
    && (op == WINDOWS_COMMIT ==> HasRange(e) && AllLive(events, n))
    && (IsProtect(op) ==> HasRange(e) && AllCommitted(events, n))
    && (op == WINDOWS_DECOMMIT || op == WINDOWS_RESET || op == WINDOWS_RESET_UNDO ==>
          HasRange(e) && AllCommitted(events, n))
    && (op == WINDOWS_RELEASE ==> IsBase(events, n, e.effectiveAddress))
    && op != WINDOWS_ALLOCATE_OTHER
  }

  lemma {:induction false} BasesAreLive(events: seq<Event>, n: nat, b: int)
    requires n <= |events|
    ensures b in Live(events, n) <==> IsBase(events, n, b)
  {
    if n > 0 {
      BasesAreLive(events, n - 1, b);
    }
  }

  lemma {:induction false} CommittedIsLive(events: seq<Event>, n: nat, a: int)
    requires n <= |events| && IsCommitted(events, n, a)
    ensures IsLive(events, n, a)
  {
  }

  /** The map agrees with the history on the bytes of one range. */
  lemma RangeTells(h: Header, events: seq<Event>, n: nat)
    requires n < |events| && ByteRun(h, events, n).Ok? && events[n].success != 0
    ensures var m := ByteRun(h, events, n).value.0;
      var s, t := events[n].effectiveAddress, events[n].effectiveAddress + events[n].effectiveSize;
      && (AnyMapped(m, s, t) <==> !NoneLive(events, n))
      && (AllMapped(m, s, t, false) <==> AllLive(events, n))
      && (AllMapped(m, s, t, true) <==> AllCommitted(events, n))
  {
    hide RunStep, ByteRun, IsLive, IsCommitted;
    var m, e := ByteRun(h, events, n).value.0, events[n];
    var s, t := e.effectiveAddress, e.effectiveAddress + e.effectiveSize;
    forall a
      ensures Within(a, s, t) <==> Touches(e, a)
      ensures a in m <==> IsLive(events, n, a)
      ensures a in m && m[a].committed <==> IsCommitted(events, n, a)
    {
      ByteTells(h, events, n, a);
    }
  }

  lemma ByteTells(h: Header, events: seq<Event>, n: nat, a: int)
    requires n <= |events| && ByteRun(h, events, n).Ok?
    ensures var m := ByteRun(h, events, n).value.0;
      (a in m <==> IsLive(events, n, a)) && (a in m && m[a].committed <==> IsCommitted(events, n, a))
  {
    hide ByteRun, IsLive, IsCommitted;
    BytesTellTheirHistory(h, events, n, a);
    if IsCommitted(events, n, a) {
      CommittedIsLive(events, n, a);
    }
  }

  lemma BelievedExactly(h: Header, events: seq<Event>, n: nat)
    requires n < |events| && ByteRun(h, events, n).Ok? && CheckContract(events[n], h).None?
    ensures ByteStep(ByteRun(h, events, n).value.0, events[n]).Ok? <==>
            events[n].success == 0 || IsBelievable(events, n)
  {
    hide RunStep, ByteRun, AnyMapped, AllMapped, NoneLive, AllLive, AllCommitted, Live, IsBase;
    var e := events[n];
    ContractedOperation(h, e);
    if e.success != 0 {
      RangeTells(h, events, n);
      if e.operation == WINDOWS_RELEASE {
        ReleaseFreesItsReservation(h, events, n, e);
        BasesAreLive(events, n, e.effectiveAddress);
      }
    }
  }

  lemma ContractedOperation(h: Header, e: Event)
    requires CheckContract(e, h).None?
    ensures POSIX_MMAP <= e.operation <= WINDOWS_ALLOCATE_OTHER
    ensures e.operation == WINDOWS_RELEASE ==> h.platform != "posix"
  {
  }

  /** The event is in sequence, keeps its contract, and records the violation that follows from the call. */
  predicate IsInOrder(h: Header, events: seq<Event>, n: nat)
    requires n < |events|
  {
    var e := events[n];
    && e.sequence == n + 1 && CheckContract(e, h).None?
    && (|| e.violation == VIOLATION_INVALID_EXPECTATION
        || e.violation == if e.exactRequired != 0 && e.success != 0 && e.returnedAddress != e.expectedAddress
                          then VIOLATION_RELOCATED else VIOLATION_NONE)
  }

  lemma StepAccepts(h: Header, events: seq<Event>, n: nat)
    requires n < |events| && ByteRun(h, events, n).Ok?
    ensures ByteRun(h, events, n + 1).Ok? <==>
            IsInOrder(h, events, n) && (events[n].success == 0 || IsBelievable(events, n))
  {
    hide ByteStep, CheckContract, IsBelievable;
    if CheckContract(events[n], h).None? {
      BelievedExactly(h, events, n);
    }
  }

  /**
   * A trace replays exactly when every event is in sequence, keeps its
   * contract, records the right violation and, if it succeeded, is believable
   * after the events before it.
   */
  lemma {:induction false} ReplaysExactly(h: Header, events: seq<Event>, n: nat)
    requires n <= |events|
    ensures ByteRun(h, events, n).Ok? <==>
            forall k :: 0 <= k < n ==> IsInOrder(h, events, k) && (events[k].success == 0 || IsBelievable(events, k))
  {
    hide RunStep, IsInOrder, IsBelievable;
    if n > 0 {
      ReplaysExactly(h, events, n - 1);
      if ByteRun(h, events, n - 1).Ok? {
        StepAccepts(h, events, n - 1);
      } else {
        RejectionIsFinal(h, events, n - 1, n);
      }
    }
  }

  /** What a refusal is called, and that it is the first thing wrong. */
  lemma RefusedAs(h: Header, events: seq<Event>, n: nat)
    requires n < |events| && ByteRun(h, events, n).Ok? && ByteRun(h, events, n + 1).Err?
    ensures var e, op, error := events[n], events[n].operation, ByteRun(h, events, n + 1).error;
      && (error == SequenceGap <==> e.sequence != n + 1)
      && (error.BadContract? <==> e.sequence == n + 1 && CheckContract(e, h).Some?)
      && (error.BadContract? ==> error.error == CheckContract(e, h).value)
      && (error == ViolationDoesNotReplay <==>
            e.sequence == n + 1 && CheckContract(e, h).None? && !IsInOrder(h, events, n))
      && (IsInOrder(h, events, n) ==>
            && (op == POSIX_MMAP ==> error == if HasRange(e) then MmapOverlaps else InvalidMmapRange)
            && (op == POSIX_MUNMAP ==> error == InvalidMunmapRange)
            && (IsProtect(op) ==> error == ProtectOutsideLiveMemory)
            && (op == WINDOWS_RESERVE ==> error == ReserveOverlapsOrOverflows)
            && (op == WINDOWS_COMMIT ==> error == CommitOutsideReservation)
            && (op == WINDOWS_DECOMMIT ==> error == DecommitOutsideCommitted)
            && (op == WINDOWS_RELEASE ==> error == ReleaseNotAtBase)
            && (op == WINDOWS_RESET || op == WINDOWS_RESET_UNDO ==> error == ResetOutsideCommitted)
            && (op == WINDOWS_ALLOCATE_OTHER ==> error == UnsupportedLifecycle))
  {
    hide Holds, After, CheckContract;
  }

  // -------------------------------------------------------------------------
  // After a decommit
  // -------------------------------------------------------------------------

  /** The event makes the byte usable again. */
  predicate Commits(e: Event, a: int) {
    Touches(e, a) && (e.operation == POSIX_MMAP || e.operation == WINDOWS_RESERVE || e.operation == WINDOWS_COMMIT)
  }

  lemma {:induction false} DecommittedStays(h: Header, events: seq<Event>, i: nat, n: nat, a: int)
    requires i < n <= |events| && ByteRun(h, events, n).Ok?
    requires events[i].operation == WINDOWS_DECOMMIT && Touches(events[i], a)
    requires forall j :: i < j < n ==> !Commits(events[j], a)
    ensures !IsCommitted(events, n, a)
    decreases n - i
  {
    hide RunStep, ByteRun, IsBelievable;
    if i + 1 < n {
      assert ByteRun(h, events, n - 1).Ok? by { EarlierIsAccepted(h, events, n - 1); }
      DecommittedStays(h, events, i, n - 1, a);
      StepAccepts(h, events, n - 1);
      if IsProtect(events[n - 1].operation) && Touches(events[n - 1], a) {
        ProtectNeedsCommitted(events, n - 1, a);
      }
    }
  }

  lemma EarlierIsAccepted(h: Header, events: seq<Event>, n: nat)
    requires n < |events| && ByteRun(h, events, n + 1).Ok?
    ensures ByteRun(h, events, n).Ok?
  {
  }

  lemma ProtectNeedsCommitted(events: seq<Event>, n: nat, a: int)
    requires n < |events| && IsProtect(events[n].operation) && IsBelievable(events, n) && Touches(events[n], a)
    ensures IsCommitted(events, n, a)
  {
  }

  /** Until a later event commits the byte, nothing that needs committed memory there is believed. */
  lemma DecommittedIsRefused(h: Header, events: seq<Event>, i: nat, n: nat, a: int)
    requires i < n < |events| && ByteRun(h, events, n).Ok?
    requires events[i].operation == WINDOWS_DECOMMIT && Touches(events[i], a) && Touches(events[n], a)
    requires forall j :: i < j < n ==> !Commits(events[j], a)
    requires var op := events[n].operation;
      IsProtect(op) || op == WINDOWS_DECOMMIT || op == WINDOWS_RESET || op == WINDOWS_RESET_UNDO
    ensures ByteRun(h, events, n + 1).Err?
  {
    hide RunStep, ByteRun, IsCommitted;
    DecommittedStays(h, events, i, n, a);
    StepAccepts(h, events, n);
  }

  // -------------------------------------------------------------------------
  // Reported violations
  // -------------------------------------------------------------------------

  /** The events, in order, that record a violation. */
  function Violating(events: seq<Event>, n: nat): (v: seq<nat>)
    requires n <= |events|
    ensures forall k :: 0 <= k < |v| ==> v[k] < n && events[v[k]].violation != VIOLATION_NONE
    ensures forall j, k :: 0 <= j < k < |v| ==> v[j] < v[k]
    ensures forall i :: 0 <= i < n && events[i].violation != VIOLATION_NONE ==> i in v
  {
    if n == 0 then []
    else if events[n - 1].violation == VIOLATION_NONE then Violating(events, n - 1)
    else Violating(events, n - 1) + [n - 1]
  }

  /**
   * The violations of an accepted trace are those of its events, in order:
   * a relocated exact address where the recorded call shows one, and an
   * invalid expectation where the event says so.
   */
  lemma {:induction false} ViolationsAreRecorded(h: Header, events: seq<Event>, n: nat)
    requires n <= |events| && ByteRun(h, events, n).Ok?
    ensures var v, at := ByteRun(h, events, n).value.1, Violating(events, n);
      && |v| == |at|
      && forall k :: 0 <= k < |v| ==>
           var e := events[at[k]];
           && (v[k] == InvalidExpectation <==> e.violation == VIOLATION_INVALID_EXPECTATION)
           && (v[k] == ExactAddressRelocated ==>
                 e.exactRequired != 0 && e.success != 0 && e.returnedAddress != e.expectedAddress)
  {
    hide ByteStep, CheckContract;
    if n > 0 {
      ViolationsAreRecorded(h, events, n - 1);
    }
  }

  /** The whole of `replay`: its answer is decided by the events alone. */
  method ReplayTrace(trace: Trace) returns (r: Result<ReplayResult, ReplayError>)
    ensures r.Ok? <==>
            forall k :: 0 <= k < |trace.events| ==>
              && IsInOrder(trace.header, trace.events, k)
              && (trace.events[k].success == 0 || IsBelievable(trace.events, k))
    ensures r.Ok? ==>
              && r.value.reproduced && r.value.eventCount == |trace.events|
              && |r.value.violations| == |Violating(trace.events, |trace.events|)|
  {
    hide RunStep, ByteRun, IsInOrder, IsBelievable, Violating;
    var replayer := new Replayer();
    r := replayer.Replay(trace);
    ReplaysExactly(trace.header, trace.events, |trace.events|);
    if r.Ok? {
      ViolationsAreRecorded(trace.header, trace.events, |trace.events|);
    }
  }
}
