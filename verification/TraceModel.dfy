/** Runtime-trace events and the per-event contract that both the reader and the replayer enforce. */
module TraceModel {
  import opened Words
  import opened Wrappers

  const PLATFORM_POSIX: u32 := 1
  const PLATFORM_WINDOWS: u32 := 2

  const POSIX_MMAP: u32 := 1
  const POSIX_MPROTECT: u32 := 2
  const POSIX_MUNMAP: u32 := 3
  const WINDOWS_RESERVE: u32 := 4
  const WINDOWS_COMMIT: u32 := 5
  const WINDOWS_PROTECT: u32 := 6
  const WINDOWS_DECOMMIT: u32 := 7
  const WINDOWS_RELEASE: u32 := 8
  const WINDOWS_RESET: u32 := 9
  const WINDOWS_RESET_UNDO: u32 := 10
  const WINDOWS_ALLOCATE_OTHER: u32 := 11

  const ERROR_NONE: u32 := 0
  const ERROR_ERRNO: u32 := 1
  const ERROR_WIN32: u32 := 2

  const VIOLATION_NONE: u32 := 0
  const VIOLATION_RELOCATED: u32 := 1
  const VIOLATION_INVALID_EXPECTATION: u32 := 2

  datatype Event = Event(
    sequence: u64,
    platform: u32,
    operation: u32,
    success: u32,
    errorDomain: u32,
    errorCode: i64,
    requestedAddress: u64,
    returnedAddress: u64,
    expectedAddress: u64,
    size: u64,
    offset: i64,
    nativeFlags: u32,
    semanticFlags: u32,
    requestedProtection: u32,
    previousProtection: u32,
    exactRequired: u32,
    violation: u32,
    effectiveAddress: u64,
    effectiveSize: u64)

  datatype Header = Header(
    abiVersion: u32,
    bufferCapacity: u32,
    platform: string,
    monitorMode: string,
    instrumentedApis: seq<string>)

  datatype Footer = Footer(
    eventCount: u64,
    droppedEvents: u64,
    reentrantEvents: u64,
    complete: bool,
    digest: string)

  datatype Trace = Trace(header: Header, events: seq<Event>, footer: Footer)

  // -------------------------------------------------------------------------
  // Semantic flags: bits 0..4 of a 32-bit word
  // -------------------------------------------------------------------------

  datatype Flags = Flags(replace: bool, reserve: bool, commit: bool, decommit: bool, release: bool)

  const NO_FLAGS := Flags(false, false, false, false, false)

  function FlagsOf(word: u32): Flags {
    Flags(word % 2 == 1,
          word / 2 % 2 == 1,
          word / 4 % 2 == 1,
          word / 8 % 2 == 1,
          word / 16 % 2 == 1)
  }

  predicate Implies(f: Flags, g: Flags) {
    && (f.replace ==> g.replace)
    && (f.reserve ==> g.reserve)
    && (f.commit ==> g.commit)
    && (f.decommit ==> g.decommit)
    && (f.release ==> g.release)
  }

  /**
   * No bit outside `allowed` is set (the five named bits are the only ones ever allowed), every bit
   * of `required` is.
   */
  predicate FlagsFit(word: u32, allowed: Flags, required: Flags) {
    word < 32 && Implies(FlagsOf(word), allowed) && Implies(required, FlagsOf(word))
  }

  // -------------------------------------------------------------------------
  // The contract
  // -------------------------------------------------------------------------

  datatype ContractError =
    | PlatformDiffers
    | OperationOnWrongPlatform
    | PosixWithoutErrno
    | WindowsWithoutWin32
    | FailureReportsRange
    | EmptySuccessfulRange
    | UnexpectedExpectation
    | UnknownOperation
    | FlagsDisagree

  function PlatformId(name: string): u32 {
    if name == "windows" then PLATFORM_WINDOWS else PLATFORM_POSIX
  }

  predicate SupportsExpectation(operation: u32) {
    || operation == POSIX_MMAP
    || operation == WINDOWS_RESERVE
    || operation == WINDOWS_COMMIT
    || operation == WINDOWS_RESET
    || operation == WINDOWS_RESET_UNDO
    || operation == WINDOWS_ALLOCATE_OTHER
  }

  function CheckSemanticFlags(e: Event): Option<ContractError> {
    var op := e.operation;
    if !(POSIX_MMAP <= op <= WINDOWS_ALLOCATE_OTHER) then
      Some(UnknownOperation)
    else
      var allowed :=
        if op == POSIX_MMAP then NO_FLAGS.(replace := true)
        else if op == POSIX_MUNMAP || op == WINDOWS_RELEASE then NO_FLAGS.(release := true)
        else if op == WINDOWS_RESERVE then NO_FLAGS.(reserve := true, commit := true)
        else if op == WINDOWS_COMMIT then NO_FLAGS.(commit := true)
        else if op == WINDOWS_DECOMMIT then NO_FLAGS.(decommit := true)
        else NO_FLAGS;
      var required :=
        if op == POSIX_MUNMAP || op == WINDOWS_RELEASE || op == WINDOWS_DECOMMIT then allowed
        else if op == WINDOWS_RESERVE then NO_FLAGS.(reserve := true)
        else if op == WINDOWS_COMMIT && e.success != 0 then allowed
        else NO_FLAGS;
      if FlagsFit(e.semanticFlags, allowed, required) then None else Some(FlagsDisagree)
  }

  function CheckContract(e: Event, h: Header): Option<ContractError> {
    if e.platform != PlatformId(h.platform) then
      Some(PlatformDiffers)
    else if (h.platform == "posix") != (POSIX_MMAP <= e.operation <= POSIX_MUNMAP) then
      Some(OperationOnWrongPlatform)
    else if e.platform == PLATFORM_POSIX && e.errorDomain != ERROR_ERRNO then
      Some(PosixWithoutErrno)
    else if e.platform == PLATFORM_WINDOWS && e.errorDomain != ERROR_WIN32 then
      Some(WindowsWithoutWin32)
    else if e.success == 0 && (e.returnedAddress != 0 || e.effectiveAddress != 0 || e.effectiveSize != 0) then
      Some(FailureReportsRange)
    else if e.success != 0 && e.operation != WINDOWS_RELEASE && (e.size == 0 || e.effectiveSize == 0) then
      Some(EmptySuccessfulRange)
    else if !SupportsExpectation(e.operation) && e.exactRequired != 0 then
      Some(UnexpectedExpectation)
    else
      CheckSemanticFlags(e)
  }

  /** The violation a replay recomputes from the recorded call. */
  function ExpectedViolation(e: Event): u32 {
    if e.violation == VIOLATION_INVALID_EXPECTATION then VIOLATION_INVALID_EXPECTATION
    else if e.exactRequired != 0 && e.success != 0 && e.returnedAddress != e.expectedAddress then VIOLATION_RELOCATED
    else VIOLATION_NONE
  }

  // -------------------------------------------------------------------------
  // The contract, spelled out
  // -------------------------------------------------------------------------

  /** The flag words each operation may carry: 1 replace, 2 reserve, 4 commit, 8 decommit, 16 release. */
  function FlagWords(e: Event): set<int> {
    if e.operation == POSIX_MMAP then {0, 1}
    else if e.operation == POSIX_MUNMAP || e.operation == WINDOWS_RELEASE then {16}
    else if e.operation == WINDOWS_RESERVE then {2, 6}
    else if e.operation == WINDOWS_COMMIT then if e.success != 0 then {4} else {0, 4}
    else if e.operation == WINDOWS_DECOMMIT then {8}
    else if POSIX_MMAP <= e.operation <= WINDOWS_ALLOCATE_OTHER then {0}
    else {}
  }

  lemma FlagsAreListed(e: Event)
    ensures CheckSemanticFlags(e).None? <==> e.semanticFlags in FlagWords(e)
  {
    if e.semanticFlags < 32 {
      assert e.semanticFlags == (if FlagsOf(e.semanticFlags).replace then 1 else 0)
                                + (if FlagsOf(e.semanticFlags).reserve then 2 else 0)
                                + (if FlagsOf(e.semanticFlags).commit then 4 else 0)
                                + (if FlagsOf(e.semanticFlags).decommit then 8 else 0)
                                + (if FlagsOf(e.semanticFlags).release then 16 else 0);
    }
  }

  /** An event keeps its contract exactly when all of these hold, whichever is checked first. */
  lemma ContractSpelledOut(e: Event, h: Header)
    requires h.platform == "posix" || h.platform == "windows"
    ensures CheckContract(e, h).None? <==>
            && (if h.platform == "windows" then e.platform == PLATFORM_WINDOWS && e.errorDomain == ERROR_WIN32
                                                && WINDOWS_RESERVE <= e.operation <= WINDOWS_ALLOCATE_OTHER
                else e.platform == PLATFORM_POSIX && e.errorDomain == ERROR_ERRNO
                     && POSIX_MMAP <= e.operation <= POSIX_MUNMAP)
            && (e.success == 0 ==> e.returnedAddress == e.effectiveAddress == e.effectiveSize == 0)
            && (e.success != 0 && e.operation != WINDOWS_RELEASE ==> e.size > 0 && e.effectiveSize > 0)
            && (e.exactRequired != 0 ==>
                  e.operation !in {POSIX_MPROTECT, POSIX_MUNMAP, WINDOWS_PROTECT, WINDOWS_DECOMMIT, WINDOWS_RELEASE})
            && e.semanticFlags in FlagWords(e)
  {
    hide CheckSemanticFlags, FlagWords;
    FlagsAreListed(e);
    if !(POSIX_MMAP <= e.operation <= WINDOWS_ALLOCATE_OTHER) {
      assert CheckSemanticFlags(e).Some? by { UnknownOperationFails(e); }
    }
  }

  /** The clause of the contract that an error is about is broken. */
  predicate Breaks(e: Event, h: Header, error: ContractError) {
    match error
    case PlatformDiffers => e.platform != if h.platform == "windows" then PLATFORM_WINDOWS else PLATFORM_POSIX
    case OperationOnWrongPlatform => (h.platform == "posix") != (POSIX_MMAP <= e.operation <= POSIX_MUNMAP)
    case PosixWithoutErrno => e.platform == PLATFORM_POSIX && e.errorDomain != ERROR_ERRNO
    case WindowsWithoutWin32 => e.platform == PLATFORM_WINDOWS && e.errorDomain != ERROR_WIN32
    case FailureReportsRange =>
      e.success == 0 && !(e.returnedAddress == e.effectiveAddress == e.effectiveSize == 0)
    case EmptySuccessfulRange =>
      e.success != 0 && e.operation != WINDOWS_RELEASE && (e.size == 0 || e.effectiveSize == 0)
    case UnexpectedExpectation => e.exactRequired != 0 && !TakesExpectation(e.operation)
    case UnknownOperation => !(POSIX_MMAP <= e.operation <= WINDOWS_ALLOCATE_OTHER)
    case FlagsDisagree => e.semanticFlags !in FlagWords(e)
  }

  /** Calls that choose or confirm an address may be expected to return a particular one. */
  predicate TakesExpectation(operation: u32) {
    operation in {POSIX_MMAP, WINDOWS_RESERVE, WINDOWS_COMMIT, WINDOWS_RESET, WINDOWS_RESET_UNDO,
                  WINDOWS_ALLOCATE_OTHER}
  }

  /** The order in which the clauses are checked. */
  function Turn(error: ContractError): nat {
    match error
    case PlatformDiffers => 0
    case OperationOnWrongPlatform => 1
    case PosixWithoutErrno => 2
    case WindowsWithoutWin32 => 3
    case FailureReportsRange => 4
    case EmptySuccessfulRange => 5
    case UnexpectedExpectation => 6
    case UnknownOperation => 7
    case FlagsDisagree => 8
  }

  /** The error reported is that of the first broken clause. */
  lemma FirstBreachIsNamed(e: Event, h: Header, error: ContractError)
    ensures CheckContract(e, h) == Some(error) <==>
            Breaks(e, h, error) && forall earlier :: Turn(earlier) < Turn(error) ==> !Breaks(e, h, earlier)
  {
    hide FlagWords, CheckSemanticFlags;
    FlagsAreListed(e);
    FlagErrors(e);
    if CheckContract(e, h) == Some(error) {
      forall earlier | Turn(earlier) < Turn(error) ensures !Breaks(e, h, earlier) {
      }
    } else if CheckContract(e, h).Some? {
      var given := CheckContract(e, h).value;
      assert Breaks(e, h, given);
      assert Turn(given) != Turn(error);
    }
  }

  lemma FlagErrors(e: Event)
    ensures CheckSemanticFlags(e) == Some(UnknownOperation) <==> !(POSIX_MMAP <= e.operation <= WINDOWS_ALLOCATE_OTHER)
    ensures CheckSemanticFlags(e).Some? ==> CheckSemanticFlags(e).value in {UnknownOperation, FlagsDisagree}
  {
    hide FlagsFit;
  }

  lemma UnknownOperationFails(e: Event)
    requires !(POSIX_MMAP <= e.operation <= WINDOWS_ALLOCATE_OTHER)
    ensures CheckSemanticFlags(e) == Some(UnknownOperation)
  {
  }
}
