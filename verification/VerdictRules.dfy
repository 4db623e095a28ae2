/** The rules that judge a program's memory requirement against what is known of a host. */
module VerdictRules {
  import opened Multiples
  import opened Words
  import opened Wrappers
  import opened Evidence
  import opened Ranges
  import opened RangeStore

  // -------------------------------------------------------------------------
  // The requirement and the host
  // -------------------------------------------------------------------------

  datatype Operation = Map | Reserve | Commit | Protect | OtherOperation

  datatype SizeRelation = Equal | AtMost | AtLeast

  datatype EofExtent = WholePagePastEnd | WithinFinalPartialPage

  datatype Request = Request(
    address: Option<u64>,
    size: u64,
    exact: bool,
    reliesOnUnmapped: bool,
    alignment: Option<u64>,
    addressMin: Option<u64>,
    addressMax: Option<u64>,
    maxDisplacement: Option<u64>,
    commitIsChecked: bool,
    pageSize: Option<u64>,
    pageRelation: SizeRelation,
    validatesReturned: bool,
    write: bool,
    execute: bool,
    writeThenExecute: bool,
    simultaneousWriteExecute: bool,
    fileBacked: bool,
    fileLength: Option<u64>,
    fileOffset: u64,
    accessesBeyondEof: bool,
    eofExtent: EofExtent,
    reserveThenCommit: bool)
  {
    function Range(): Option<AddressRange> {
      if address.None? then None else FromBaseSize(address.value, size)
    }
  }

  datatype Requirement = Requirement(
    operation: Operation,
    request: Request,
    identity: bool,
    translation: bool,
    pointerBits: Option<u64>,
    retries: bool,
    permitsRelocation: bool,
    claim: EvidenceClass)

  datatype CommitModel = PosixLazy | WindowsReserveCommit | UnknownModel

  datatype EofBehavior = Sigbus | EofError | ZeroFill | UnknownBehavior

  datatype Profile = Profile(
    ranges: RangeFacts,
    anonymousMapping: Fact<bool>,
    maxReservation: Fact<u64>,
    maxReservationHinted: Fact<u64>,
    granularity: Fact<u64>,
    pageSize: Fact<u64>,
    exactMapping: Fact<SupportLevel>,
    fixedNoReplace: Fact<bool>,
    hintedMayRelocate: Fact<bool>,
    writeExecute: Fact<bool>,
    writeThenExecute: Fact<bool>,
    anonymousExecutable: Fact<bool>,
    jitEntitlement: Fact<bool>,
    commitModel: Fact<CommitModel>,
    beyondEof: Fact<EofBehavior>,
    processPointerBits: u64)

  // -------------------------------------------------------------------------
  // What a rule may say
  // -------------------------------------------------------------------------

  datatype FindingId =
    | InvalidFallbackContract
    | RequiredFactUnknown
    | AnonymousMappingUnavailable
    | SizeExceedsAddressSpace
    | ReservationGrantabilityUnknown
    | SizeExceedsGrantedReservation
    | AddressBoundUnsatisfiable
    | AddressBoundIsTight
    | DisplacementNotEvaluable
    | ReservationAlignmentUnguaranteed
    | PageSizeMismatch
    | AddressAlignmentMismatch
    | SizeGranularityMismatch
    | AddressHintNotHonourable
    | AddressAboveUserSpace
    | AddressBelowMinimum
    | ExactAddressUnavailable
    | NonDestructiveUnavailable
    | HintedMappingMayRelocate
    | IdentityWithoutTranslation
    | WriteExecuteRestricted
    | ExecutableMappingUnsupported
    | JitEntitlementRequired
    | ReserveCommitMismatch
    | PointerTruncation
    | FileMappingBeyondEof
    | PermanentErrorRetried

  /** A finding as a rule drafts it; `chain` holds the evidence class of each step, in order. */
  datatype Draft = Draft(id: FindingId, desired: Confidence, impact: SupportLevel, structural: bool,
      chain: seq<EvidenceClass>)

  /** A rule stays quiet, joins a level without a finding, or drafts one finding. */
  datatype Outcome = Quiet | Silent(level: SupportLevel) | Says(draft: Draft)

  function Impossible(id: FindingId, chain: seq<EvidenceClass>): Outcome {
    Says(Draft(id, Proven, Unsupported, true, chain))
  }

  function Refused(id: FindingId, chain: seq<EvidenceClass>): Outcome {
    Says(Draft(id, Proven, Unsupported, false, chain))
  }

  function Conditional(id: FindingId, chain: seq<EvidenceClass>): Outcome {
    Says(Draft(id, Proven, ConditionallySupported, false, chain))
  }

  /** A fact the profile does not carry: named only when unknowns are to be reported. */
  function Missing(q: Requirement, report: bool): Outcome {
    if report then Says(Draft(RequiredFactUnknown, Hypothesis, Unknown, false, [q.claim, UnknownEvidence]))
        else Silent(Unknown)
  }

  // -------------------------------------------------------------------------
  // Alignment arithmetic
  // -------------------------------------------------------------------------

  predicate IsPowerOfTwo(v: nat) {
    v == 1 || (v > 1 && v % 2 == 0 && IsPowerOfTwo(v / 2))
  }

  predicate IsAligned(value: u64, alignment: u64) {
    IsPowerOfTwo(alignment) && value % alignment == 0
  }

  /** `align_up`: nothing for a bad alignment, or when adding the mask would wrap. */
  function RoundUp(size: u64, granularity: u64): (r: Option<nat>)
  {
    if !IsPowerOfTwo(granularity) || size + (granularity - 1) >= U64_LIMIT then None
    else Some(CeilTo(size, granularity))
  }

  /** A rounded size is the least multiple that holds the request, and still a 64-bit number. */
  lemma RoundUpIsLeast(size: u64, granularity: u64, k: nat)
    requires RoundUp(size, granularity).Some?
    ensures var r := RoundUp(size, granularity).value;
      && size <= r < U64_LIMIT && r % granularity == 0 && r - size < granularity
      && (k % granularity == 0 && k >= size ==> r <= k)
  {
    CeilIsLeastMultiple(size, granularity, k);
    assert CeilTo(size, granularity) <= size + (granularity - 1) by {
      var n := size + (granularity - 1);
      assert n == n / granularity * granularity + n % granularity;
    }
  }

  // -------------------------------------------------------------------------
  // The rules
  // -------------------------------------------------------------------------

  function FallbackContradiction(q: Requirement): Outcome {
    if !q.permitsRelocation || q.request.validatesReturned || !(q.request.exact || q.identity) then Quiet
    else Refused(InvalidFallbackContract, [q.claim, q.claim, SpecifiedGuarantee])
  }

  function BaselineMapping(q: Requirement, p: Profile, report: bool): Outcome {
    if q.request.fileBacked then Quiet
    else if p.anonymousMapping.NotKnown? then Missing(q, report)
    else if p.anonymousMapping.value then Quiet
    else Impossible(AnonymousMappingUnavailable, [q.claim, p.anonymousMapping.evidence])
  }

  /** The largest request ever observed, rounded up to a power of two. */
  const LARGEST_OBSERVED: u64 := 0x1_0000_0000

  /** The granted reservation that bounds this caller: the hinted one only when the caller names a high address. */
  function Granted(q: Requirement, p: Profile): Fact<u64>
    requires p.maxReservation.Known?
  {
    var unhinted := p.maxReservation.value;
    if q.request.address.Some? && p.maxReservationHinted.Known? && q.request.address.value > unhinted
       && p.maxReservationHinted.value > unhinted
    then p.maxReservationHinted else p.maxReservation
  }

  function ReservationGrantable(q: Requirement, p: Profile): Outcome {
    var size := q.request.size;
    if p.maxReservation.NotKnown? then
      if size <= LARGEST_OBSERVED then Quiet
      else Says(Draft(ReservationGrantabilityUnknown, Hypothesis, Unknown, false, [q.claim, UnknownEvidence]))
    else
      var granted := Granted(q, p);
      var chain := [q.claim, granted.Evidence(), SpecifiedGuarantee];
      if size <= granted.value then Quiet
      else if granted.value <= (U64_LIMIT - 1) / 2 && size > 2 * granted.value then
          Refused(SizeExceedsGrantedReservation, chain)
      else Says(Draft(SizeExceedsGrantedReservation, Hypothesis, ConditionallySupported, false, chain))
  }

  /** The lowest mappable address, zero when unknown. */
  function Floor(p: Profile): u64 {
    if p.ranges.minMapAddress.Known? then p.ranges.minMapAddress.value else 0
  }

  function SizeFeasibility(q: Requirement, p: Profile): Outcome {
    if q.request.size == 0 || p.ranges.maxUserAddress.NotKnown? || p.ranges.maxUserAddress.value <= Floor(p) then Quiet
    else if q.request.size <= p.ranges.maxUserAddress.value - Floor(p) then ReservationGrantable(q, p)
    else Impossible(SizeExceedsAddressSpace, [q.claim, p.ranges.maxUserAddress.evidence, SpecifiedGuarantee])
  }

  function LowerBound(q: Requirement): u64 {
    if q.request.addressMin.Some? then q.request.addressMin.value else 0
  }

  function UpperBound(q: Requirement): u64 {
    if q.request.addressMax.Some? then q.request.addressMax.value else U64_LIMIT - 1
  }

  function AddressBounds(q: Requirement, p: Profile, report: bool): Outcome {
    var r, lower, upper := q.request, LowerBound(q), UpperBound(q);
    if r.addressMin.None? && r.addressMax.None? then Quiet
    else if r.address.Some? && (r.address.value < lower || r.address.value >= upper) then
      Impossible(AddressBoundUnsatisfiable, [q.claim, SpecifiedGuarantee])
    else if r.addressMin.Some? && p.ranges.maxUserAddress.Known? && p.ranges.maxUserAddress.value <= lower then
      Impossible(AddressBoundUnsatisfiable, [q.claim, p.ranges.maxUserAddress.evidence])
    else if r.addressMax.Some? && p.ranges.minMapAddress.Known? && p.ranges.minMapAddress.value >= upper then
      Impossible(AddressBoundUnsatisfiable, [q.claim, p.ranges.minMapAddress.evidence])
    else if !Conflicts(p.ranges.available, AddressRange(lower, upper)) then Missing(q, report)
    else if r.addressMax.None? || p.ranges.maxUserAddress.NotKnown? then Quiet
    else if p.ranges.maxUserAddress.value == 0 || upper > p.ranges.maxUserAddress.value / 4 then Quiet
    else
      Says(Draft(AddressBoundIsTight, Predictive, ConditionallySupported, false,
                 [q.claim, p.ranges.maxUserAddress.evidence, HeuristicRisk]))
  }

  function Displacement(q: Requirement): Outcome {
    if q.request.maxDisplacement.None? then Quiet
    else Says(Draft(DisplacementNotEvaluable, Hypothesis, Unknown, false, [q.claim, UnknownEvidence]))
  }

  function ReservationAlignment(q: Requirement, p: Profile): Outcome {
    if q.request.alignment.None? || q.request.address.Some? then Quiet
    else if !IsPowerOfTwo(q.request.alignment.value) || p.granularity.NotKnown? then Quiet
    else if q.request.alignment.value <= p.granularity.value then Quiet
    else Conditional(ReservationAlignmentUnguaranteed, [q.claim, p.granularity.evidence, SpecifiedGuarantee])
  }

  predicate PageRelationHolds(q: Requirement, actual: u64)
    requires q.request.pageSize.Some?
  {
    match q.request.pageRelation
    case Equal => actual == q.request.pageSize.value
    case AtMost => actual <= q.request.pageSize.value
    case AtLeast => actual >= q.request.pageSize.value
  }

  /** The one rule that stays quiet about a missing fact when unknowns are not reported. */
  function PageSize(q: Requirement, p: Profile, report: bool): Outcome {
    if q.request.pageSize.None? then Quiet
    else if p.pageSize.NotKnown? then if report then Missing(q, true) else Quiet
    else if PageRelationHolds(q, p.pageSize.value) then Quiet
    else Impossible(PageSizeMismatch, [q.claim, p.pageSize.evidence])
  }

  function AddressAlignment(q: Requirement, p: Profile): Outcome {
    var r := q.request;
    if r.address.None? then Quiet
    else if r.alignment.Some? && IsPowerOfTwo(r.alignment.value) && !IsAligned(r.address.value, r.alignment.value) then
      Refused(AddressAlignmentMismatch, [q.claim, SpecifiedGuarantee])
    else if !r.exact || p.granularity.NotKnown? || IsAligned(r.address.value, p.granularity.value) then Quiet
    else Impossible(AddressAlignmentMismatch, [q.claim, p.granularity.evidence, SpecifiedGuarantee])
  }

  function SizeGranularity(q: Requirement, p: Profile): Outcome {
    if p.granularity.NotKnown? || p.granularity.value == 0 || IsAligned(q.request.size, p.granularity.value) then Quiet
    else if RoundUp(q.request.size, p.granularity.value).None? then Quiet
    else if q.request.reliesOnUnmapped then Refused(SizeGranularityMismatch, [q.claim, p.granularity.evidence])
    else Says(Draft(SizeGranularityMismatch, Proven, Supported, false, [q.claim, p.granularity.evidence]))
  }

  /** The finding that names the obstacle to an exact placement. */
  function Obstacle(p: Profile, range: AddressRange): FindingId {
    if BelowMinimum(p.ranges, range) then AddressBelowMinimum
    else if AboveMaximum(p.ranges, range) then AddressAboveUserSpace
    else ExactAddressUnavailable
  }

  function RangeAvailability(q: Requirement, p: Profile, report: bool): Outcome {
    if q.request.address.None? then Quiet
    else if !q.request.exact && !q.identity then
      if q.request.Range().None? || Verdict(p.ranges, q.request.Range().value).level != Unsupported then Quiet
      else
        Says(Draft(AddressHintNotHonourable, Proven, Supported, false,
                   [q.claim, Verdict(p.ranges, q.request.Range().value).evidence]))
    else if q.request.Range().None? then Impossible(AddressAboveUserSpace, [q.claim, SpecifiedGuarantee])
    else
      var range := q.request.Range().value;
      var v := Verdict(p.ranges, range);
      match v.level
      case Supported => Quiet
      case Unknown => Missing(q, report)
      case _ =>
        Impossible(Obstacle(p, range),
                   [q.claim] + (if q.identity then [q.claim] else []) + [v.evidence]
                   + if v.conflict.Some? then [v.evidence] else [])
  }

  function ExactCapability(q: Requirement, p: Profile): Outcome {
    if !q.request.exact || p.exactMapping.NotKnown? || p.exactMapping.value != Unsupported then Quiet
    else Impossible(ExactAddressUnavailable, [q.claim, p.exactMapping.evidence])
  }

  function NonDestructive(q: Requirement, p: Profile): Outcome {
    if !q.request.exact || p.fixedNoReplace.NotKnown? || p.fixedNoReplace.value then Quiet
    else Conditional(NonDestructiveUnavailable, [q.claim, p.fixedNoReplace.evidence])
  }

  function HintedRelocation(q: Requirement, p: Profile): Outcome {
    if q.request.exact || q.request.address.None? || !q.identity then Quiet
    else if p.hintedMayRelocate.NotKnown? || !p.hintedMayRelocate.value then Quiet
    else
      Says(Draft(HintedMappingMayRelocate, Counterexample, Unsupported, false,
                 [q.claim, p.hintedMayRelocate.evidence, BoundedCounterexample]))
  }

  /** Suppressed when a sharper rule has said it already. */
  function Identity(q: Requirement, relocationSaid: bool, impossible: bool): Outcome {
    if !q.identity || q.translation || q.request.exact || relocationSaid || impossible then Quiet
    else Says(Draft(IdentityWithoutTranslation, Hypothesis, ConditionallySupported, false,
        [q.claim, q.claim, HeuristicRisk]))
  }

  function WriteExecute(q: Requirement, p: Profile): Outcome {
    if !q.request.simultaneousWriteExecute && !(q.request.write && q.request.execute) then
      if !q.request.writeThenExecute || p.writeThenExecute.NotKnown? || p.writeThenExecute.value then Quiet
      else Refused(WriteExecuteRestricted, [q.claim, p.writeThenExecute.evidence])
    else if p.writeExecute.NotKnown? || p.writeExecute.value then Quiet
    else
      Impossible(WriteExecuteRestricted,
                 [q.claim, p.writeExecute.evidence]
                 + if p.writeThenExecute.Known? && p.writeThenExecute.value then [p.writeThenExecute.evidence] else [])
  }

  function ExecutableMapping(q: Requirement, p: Profile): Outcome {
    if (!q.request.execute && !q.request.writeThenExecute) || q.request.fileBacked then Quiet
    else if p.anonymousExecutable.NotKnown? || p.anonymousExecutable.value then Quiet
    else Impossible(ExecutableMappingUnsupported, [q.claim, p.anonymousExecutable.evidence])
  }

  function JitEntitlement(q: Requirement, p: Profile): Outcome {
    if !q.request.execute && !q.request.writeThenExecute then Quiet
    else if p.jitEntitlement.NotKnown? || !p.jitEntitlement.value then Quiet
    else Conditional(JitEntitlementRequired, [q.claim, p.jitEntitlement.evidence])
  }

  function ReserveCommit(q: Requirement, p: Profile): Outcome {
    if !q.request.reserveThenCommit || q.request.commitIsChecked then Quiet
    else if p.commitModel.NotKnown? || p.commitModel.value != PosixLazy then Quiet
    else Conditional(ReserveCommitMismatch, [q.claim, p.commitModel.evidence])
  }

  /** The storage width the address must survive, and how it is known. */
  function PointerWidth(q: Requirement, p: Profile): Fact<u64> {
    if q.pointerBits.Some? then Known(q.pointerBits.value, q.claim)
    else if p.processPointerBits != 0 then Known(p.processPointerBits, SpecifiedGuarantee)
    else NotKnown
  }

  /** The highest address the request could involve. */
  function Highest(q: Requirement, p: Profile): Option<u64> {
    if q.request.Range().Some? then Some(q.request.Range().value.end)
    else if p.ranges.maxUserAddress.Known? then Some(p.ranges.maxUserAddress.value)
    else None
  }

  predicate RejectsBadAddresses(q: Requirement) {
    q.request.validatesReturned || q.permitsRelocation || q.retries
  }

  function Truncation(q: Requirement, p: Profile): Outcome {
    var width, highest := PointerWidth(q, p), Highest(q, p);
    if width.NotKnown? || width.value == 0 || width.value >= 64 || highest.None? then Quiet
    else if highest.value <= Pow2(width.value) then Quiet
    else
      var chain := [q.claim, width.evidence, SpecifiedGuarantee];
      if RejectsBadAddresses(q) then Conditional(PointerTruncation, chain) else Impossible(PointerTruncation, chain)
  }

  /** Where a file mapping ends, saturated when the sum does not fit 64 bits. */
  function MappingEnd(q: Requirement): u64 {
    if q.request.fileOffset + q.request.size >= U64_LIMIT then U64_LIMIT - 1 else q.request.fileOffset + q.request.size
  }

  /** Reads only within the final partial page, of which there is one. */
  predicate ReadsPartialPage(q: Requirement, p: Profile)
    requires q.request.fileLength.Some?
  {
    && q.request.eofExtent == WithinFinalPartialPage
    && p.pageSize.Known? && p.pageSize.value > 0 && q.request.fileLength.value % p.pageSize.value != 0
  }

  function BeyondEof(q: Requirement, p: Profile, report: bool): Outcome {
    if !q.request.fileBacked || q.request.fileLength.None? || MappingEnd(q) <= q.request.fileLength.value then Quiet
    else if p.beyondEof.NotKnown? then Missing(q, report)
    else if !q.request.accessesBeyondEof || ReadsPartialPage(q, p) then Quiet
    else if p.beyondEof.value == ZeroFill then Conditional(FileMappingBeyondEof, [q.claim, p.beyondEof.evidence])
    else Refused(FileMappingBeyondEof, [q.claim, p.beyondEof.evidence])
  }

  /** Reasons about the other findings, and inherits their evidence. */
  function RetryOfPermanentError(q: Requirement, impossible: bool, inherited: EvidenceClass): Outcome {
    if !q.retries || !impossible then Quiet
    else Refused(PermanentErrorRetried, [q.claim, inherited])
  }
}
