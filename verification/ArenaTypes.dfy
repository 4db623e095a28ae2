/** What both arena walks share: the injected platform callbacks and the result they fill in. */
module ArenaTypes {
  import opened Words
  import opened Evidence
  import opened Ranges

  datatype Placement = Placed | HeldByProbe | Refused

  datatype Entry = Entry(covers: bool, start: u64, size: u64, text: string)

  /** The two platform callbacks, as total functions; `callable` says that both are set. */
  datatype Probe = Probe(callable: bool, place: (u64, u64) -> Placement, describe: u64 -> Entry)

  datatype ArenaWalk = ArenaWalk(
    available: seq<ClassifiedRange>,
    unavailable: seq<ClassifiedRange>,
    attempts: nat,
    budgetExhausted: bool,
    placed: nat,
    heldByProbe: nat,
    refused: nat,
    skipped: nat,
    heldNoAccess: nat)

  const EMPTY_WALK := ArenaWalk([], [], 0, false, 0, 0, 0, 0, 0)

  function Measured(start: u64, end: u64, note: string): ClassifiedRange {
    ClassifiedRange(AddressRange(start, end), MeasuredCapability, note)
  }
}
