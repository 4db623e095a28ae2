/** What each level of a verdict, and each of its findings, says about the requirement and the host. */
module VerdictLevels {
  import opened Multiples
  import opened Words
  import opened Evidence
  import opened Ranges
  import RangeStore
  import opened VerdictRules
  import opened VerdictEngine
  import opened VerdictClaims

  // -------------------------------------------------------------------------
  // What can be wrong, or unknown
  // -------------------------------------------------------------------------

  // The size.

  /** Something can be asked, and the ends of the address space are known well enough to compare. */
  predicate SpaceIsKnown(q: Requirement, p: Profile) {
    var top, bottom := p.ranges.maxUserAddress, p.ranges.minMapAddress;
    q.request.size > 0 && top.Known? && top.value > 0 && (bottom.Known? ==> bottom.value < top.value)
  }

  predicate ExceedsSpace(q: Requirement, p: Profile) {
    var top, bottom := p.ranges.maxUserAddress, p.ranges.minMapAddress;
    SpaceIsKnown(q, p) && q.request.size + (if bottom.Known? then bottom.value else 0) > top.value
  }

  /** The host was seen to grant `n` bytes to such a caller: at all, or to one that names an address that high. */
  predicate WasGranted(q: Requirement, p: Profile, n: nat) {
    var plain, hinted := p.maxReservation, p.maxReservationHinted;
    && plain.Known?
    && (|| n <= plain.value
        || (hinted.Known? && n <= hinted.value && q.request.address.Some? && q.request.address.value > plain.value))
  }

  predicate Fits(q: Requirement, p: Profile) {
    SpaceIsKnown(q, p) && !ExceedsSpace(q, p)
  }

  /** More than the double of anything granted: such a request was seen to be refused. */
  predicate IsNotGranted(q: Requirement, p: Profile) {
    Fits(q, p) && p.maxReservation.Known? && !WasGranted(q, p, (q.request.size + 1) / 2)
  }

  /** Between the largest size granted and the smallest refused. */
  predicate IsBetween(q: Requirement, p: Profile) {
    Fits(q, p) && !WasGranted(q, p, q.request.size) && WasGranted(q, p, (q.request.size + 1) / 2)
  }

  predicate IsUnprobed(q: Requirement, p: Profile) {
    Fits(q, p) && p.maxReservation.NotKnown? && q.request.size > 4 * 1024 * 1024 * 1024
  }

  predicate HasOtherPages(q: Requirement, p: Profile) {
    q.request.pageSize.Some? && p.pageSize.Known? &&
    match q.request.pageRelation
    case Equal => p.pageSize.value != q.request.pageSize.value
    case AtMost => p.pageSize.value > q.request.pageSize.value
    case AtLeast => p.pageSize.value < q.request.pageSize.value
  }

  predicate HasUnknownPages(q: Requirement, p: Profile, report: bool) {
    q.request.pageSize.Some? && p.pageSize.NotKnown? && report
  }

  /** The host rounds the size up. */
  predicate IsRounded(q: Requirement, p: Profile) {
    var size, g := q.request.size, p.granularity;
    g.Known? && IsPowerOfTwo(g.value) && size % g.value != 0 && size + g.value <= U64_LIMIT
  }

  predicate NeedsMoreAlignment(q: Requirement, p: Profile) {
    var a, g := q.request.alignment, p.granularity;
    q.request.address.None? && a.Some? && IsPowerOfTwo(a.value) && g.Known? && a.value > g.value
  }

  // The place.

  predicate AddressMatters(q: Requirement) {
    q.request.address.Some? && (q.request.exact || q.identity)
  }

  /** The requested bytes, where an address is named, are addresses of 64 bits. */
  predicate HasRange(q: Requirement) {
    q.request.address.Some? && q.request.size > 0 && q.request.address.value + q.request.size < U64_LIMIT
  }

  function PlaceLevel(q: Requirement, p: Profile): SupportLevel
    requires HasRange(q)
  {
    var a := q.request.address.value;
    RangeStore.Level(p.ranges, AddressRange(a, a + q.request.size))
  }

  predicate IsUnplaceable(q: Requirement, p: Profile) {
    AddressMatters(q) && (HasRange(q) ==> PlaceLevel(q, p) == Unsupported)
  }

  predicate IsUnseenPlace(q: Requirement, p: Profile) {
    AddressMatters(q) && HasRange(q) && PlaceLevel(q, p) == Unknown
  }

  predicate HintIsVain(q: Requirement, p: Profile) {
    HasRange(q) && !AddressMatters(q) && PlaceLevel(q, p) == Unsupported
  }

  /** The address breaks the alignment that the requirement itself declares. */
  predicate IsMisaligned(q: Requirement) {
    var r := q.request;
    r.address.Some? && r.alignment.Some? && IsPowerOfTwo(r.alignment.value) && r.address.value % r.alignment.value != 0
  }

  predicate IsOffGranularity(q: Requirement, p: Profile) {
    && q.request.address.Some? && q.request.exact && p.granularity.Known?
    && !IsAligned(q.request.address.value, p.granularity.value)
  }

  predicate LacksExactMapping(q: Requirement, p: Profile) {
    q.request.exact && p.exactMapping.Known? && p.exactMapping.value == Unsupported
  }

  predicate MayOverwrite(q: Requirement, p: Profile) {
    q.request.exact && p.fixedNoReplace.Known? && !p.fixedNoReplace.value
  }

  predicate MayBeMoved(q: Requirement, p: Profile) {
    && q.request.address.Some? && q.identity && !q.request.exact
    && p.hintedMayRelocate.Known? && p.hintedMayRelocate.value
  }

  predicate IsFragile(q: Requirement) {
    q.identity && !q.translation && !q.request.exact
  }

  predicate LacksAnonymous(q: Requirement, p: Profile) {
    !q.request.fileBacked && p.anonymousMapping.Known? && !p.anonymousMapping.value
  }

  predicate HasUnknownAnonymous(q: Requirement, p: Profile) {
    !q.request.fileBacked && p.anonymousMapping.NotKnown?
  }

  // The bounds.

  predicate HasBounds(q: Requirement) {
    q.request.addressMin.Some? || q.request.addressMax.Some?
  }

  /** The highest address of all is outside any bounds. */
  predicate InBounds(q: Requirement, a: u64) {
    && (q.request.addressMin.Some? ==> q.request.addressMin.value <= a)
    && (q.request.addressMax.Some? ==> a < q.request.addressMax.value)
    && a < U64_LIMIT - 1
  }

  /** The address is outside, or all that the host has is. */
  predicate IsOutOfBounds(q: Requirement, p: Profile) {
    var r, top, bottom := q.request, p.ranges.maxUserAddress, p.ranges.minMapAddress;
    || (HasBounds(q) && r.address.Some? && !InBounds(q, r.address.value))
    || (r.addressMin.Some? && top.Known? && top.value <= r.addressMin.value)
    || (r.addressMax.Some? && bottom.Known? && bottom.value >= r.addressMax.value)
  }

  /** Some mapping was seen to land within the bounds. */
  ghost predicate IsSeenInBounds(q: Requirement, p: Profile) {
    exists k, a: u64 :: 0 <= k < |p.ranges.available| && p.ranges.available[k].range.HasAddress(a) && InBounds(q, a)
  }

  ghost predicate HasUnseenBounds(q: Requirement, p: Profile) {
    HasBounds(q) && !IsOutOfBounds(q, p) && !IsSeenInBounds(q, p)
  }

  /** A quarter of the address space or less. */
  ghost predicate HasTightBounds(q: Requirement, p: Profile) {
    var max, top := q.request.addressMax, p.ranges.maxUserAddress;
    max.Some? && top.Known? && 0 < top.value && 4 * max.value <= top.value
    && !IsOutOfBounds(q, p) && IsSeenInBounds(q, p)
  }

  // The use.

  predicate IsKeptFromBoth(q: Requirement, p: Profile) {
    WritesWhileExecuting(q) && p.writeExecute.Known? && !p.writeExecute.value
  }

  predicate IsKeptFromSwitching(q: Requirement, p: Profile) {
    && !WritesWhileExecuting(q) && q.request.writeThenExecute
    && p.writeThenExecute.Known? && !p.writeThenExecute.value
  }

  predicate IsKeptFromExecuting(q: Requirement, p: Profile) {
    && ExecutesCode(q) && !q.request.fileBacked
    && p.anonymousExecutable.Known? && !p.anonymousExecutable.value
  }

  predicate NeedsEntitlement(q: Requirement, p: Profile) {
    ExecutesCode(q) && p.jitEntitlement.Known? && p.jitEntitlement.value
  }

  predicate CommitsLazily(q: Requirement, p: Profile) {
    && q.request.reserveThenCommit && !q.request.commitIsChecked
    && p.commitModel.Known? && p.commitModel.value == PosixLazy
  }

  /** An address can reach beyond what the program stores of it. */
  predicate Outreaches(q: Requirement, p: Profile) {
    var width := if q.pointerBits.Some? then q.pointerBits.value else p.processPointerBits;
    && 0 < width < 64
    && if HasRange(q) then q.request.address.value + q.request.size > Pow2(width)
       else p.ranges.maxUserAddress.Known? && p.ranges.maxUserAddress.value > Pow2(width)
  }

  predicate NoticesWrongAddresses(q: Requirement) {
    q.request.validatesReturned || q.permitsRelocation || q.retries
  }

  /** The mapping ends past the end of its file; a file of the greatest length has nothing past its end. */
  predicate PassesEof(q: Requirement) {
    var length := q.request.fileLength;
    q.request.fileBacked && length.Some? && length.value < U64_LIMIT - 1
    && q.request.fileOffset + q.request.size > length.value
  }

  /** It reads there, and not only in the final partial page. */
  predicate ReadsPastEof(q: Requirement, p: Profile) {
    && PassesEof(q) && q.request.accessesBeyondEof && p.beyondEof.Known?
    && !(q.request.eofExtent == WithinFinalPartialPage && p.pageSize.Known? && p.pageSize.value > 0
         && q.request.fileLength.value % p.pageSize.value != 0)
  }

  /** The program may be moved, does not look where to, and cannot bear it. */
  predicate ContradictsItself(q: Requirement) {
    q.permitsRelocation && !q.request.validatesReturned && (q.request.exact || q.identity)
  }

  // -------------------------------------------------------------------------
  // The levels
  // -------------------------------------------------------------------------

  /** No place on this host would do. */
  predicate IsImpossibleAnywhere(q: Requirement, p: Profile) {
    || LacksAnonymous(q, p) || ExceedsSpace(q, p) || IsOutOfBounds(q, p) || HasOtherPages(q, p)
    || (IsOffGranularity(q, p) && !IsMisaligned(q)) || LacksExactMapping(q, p)
  }

  predicate IsImpossibleToPlace(q: Requirement, p: Profile) {
    IsImpossibleAnywhere(q, p) || IsUnplaceable(q, p)
  }

  predicate IsImpossibleToUse(q: Requirement, p: Profile) {
    IsKeptFromBoth(q, p) || IsKeptFromExecuting(q, p) || (Outreaches(q, p) && !NoticesWrongAddresses(q))
  }

  predicate IsImpossible(q: Requirement, p: Profile) {
    IsImpossibleToPlace(q, p) || IsImpossibleToUse(q, p)
  }

  predicate IsRefused(q: Requirement, p: Profile) {
    || ContradictsItself(q) || IsNotGranted(q, p) || IsMisaligned(q) || MayBeMoved(q, p)
    || (IsRounded(q, p) && q.request.reliesOnUnmapped)
    || IsKeptFromSwitching(q, p) || (ReadsPastEof(q, p) && p.beyondEof.value != ZeroFill)
  }

  ghost predicate IsUndecided(q: Requirement, p: Profile, report: bool) {
    || HasUnknownAnonymous(q, p) || IsUnprobed(q, p) || HasUnseenBounds(q, p) || q.request.maxDisplacement.Some?
    || HasUnknownPages(q, p, report) || IsUnseenPlace(q, p) || (PassesEof(q) && p.beyondEof.NotKnown?)
  }

  ghost predicate IsConditional(q: Requirement, p: Profile) {
    || IsBetween(q, p) || HasTightBounds(q, p) || NeedsMoreAlignment(q, p) || MayOverwrite(q, p) || IsFragile(q)
    || NeedsEntitlement(q, p) || CommitsLazily(q, p) || (Outreaches(q, p) && NoticesWrongAddresses(q))
    || (ReadsPastEof(q, p) && p.beyondEof.value == ZeroFill)
  }

  // -------------------------------------------------------------------------
  // What each rule makes of it
  // -------------------------------------------------------------------------

  /** What a finding amounts to: its level, and whether it claims impossibility. */
  datatype Weight = Note | Condition | Doubt | Refusal | Impossibility {
    function Level(): SupportLevel {
      match this
      case Note => Supported
      case Condition => ConditionallySupported
      case Doubt => Unknown
      case _ => Unsupported
    }
  }

  predicate IsSaid(o: Outcome, id: FindingId, weight: Weight) {
    o.Says? && o.draft.id == id && o.draft.impact == weight.Level() && o.draft.structural == weight.Impossibility?
  }

  predicate IsMissing(o: Outcome, report: bool) {
    if report then IsSaid(o, RequiredFactUnknown, Doubt) else o == Silent(Unknown)
  }

  lemma ConsistencyRules(q: Requirement, p: Profile)
    ensures var o := FallbackContradiction(q);
      if ContradictsItself(q) then IsSaid(o, InvalidFallbackContract, Refusal) else o.Quiet?
    ensures var o := Displacement(q);
      if q.request.maxDisplacement.Some? then IsSaid(o, DisplacementNotEvaluable, Doubt) else o.Quiet?
    ensures var o := ReservationAlignment(q, p);
      if NeedsMoreAlignment(q, p) then IsSaid(o, ReservationAlignmentUnguaranteed, Condition)
      else o.Quiet?
  {
    hide IsPowerOfTwo;
  }

  lemma SizeRule(q: Requirement, p: Profile)
    ensures var o := SizeFeasibility(q, p);
      if ExceedsSpace(q, p) then IsSaid(o, SizeExceedsAddressSpace, Impossibility)
      else if IsUnprobed(q, p) then IsSaid(o, ReservationGrantabilityUnknown, Doubt)
      else if IsNotGranted(q, p) then IsSaid(o, SizeExceedsGrantedReservation, Refusal)
      else if IsBetween(q, p) then IsSaid(o, SizeExceedsGrantedReservation, Condition)
      else o.Quiet?
  {
  }

  lemma PageRule(q: Requirement, p: Profile, report: bool)
    ensures var o := PageSize(q, p, report);
      if HasOtherPages(q, p) then IsSaid(o, PageSizeMismatch, Impossibility)
      else if HasUnknownPages(q, p, report) then IsSaid(o, RequiredFactUnknown, Doubt)
      else o.Quiet?
  {
  }

  lemma GranularityRules(q: Requirement, p: Profile)
    ensures var o := SizeGranularity(q, p);
      if !IsRounded(q, p) then o.Quiet?
      else IsSaid(o, SizeGranularityMismatch, if q.request.reliesOnUnmapped then Refusal else Note)
    ensures var o := AddressAlignment(q, p);
      if IsMisaligned(q) then IsSaid(o, AddressAlignmentMismatch, Refusal)
      else if IsOffGranularity(q, p) then IsSaid(o, AddressAlignmentMismatch, Impossibility)
      else o.Quiet?
  {
    hide IsPowerOfTwo, CeilTo;
    PowersArePositive(0);
  }

  /** The alignments the rules accept. */
  lemma {:induction false} PowersExactly(v: nat)
    ensures IsPowerOfTwo(v) <==> exists k: nat :: Pow2(k) == v
  {
    assert Pow2(0) == 1;
    if v > 1 {
      PowersExactly(v / 2);
      if v % 2 == 0 && IsPowerOfTwo(v / 2) {
        var k: nat :| Pow2(k) == v / 2;
        assert Pow2(k + 1) == v;
      }
      if k: nat :| Pow2(k) == v {
        assert v == 2 * Pow2(k - 1);
        assert v / 2 == Pow2(k - 1);
      }
    }
  }

  lemma PowersArePositive(v: nat)
    ensures IsPowerOfTwo(v) ==> v > 0
    ensures !IsPowerOfTwo(0)
  {
  }

  lemma PlaceRule(q: Requirement, p: Profile, report: bool)
    ensures var o := RangeAvailability(q, p, report);
      if IsUnplaceable(q, p) then IsSaid(o, ObstacleTo(q, p), Impossibility)
      else if IsUnseenPlace(q, p) then IsMissing(o, report)
      else if HintIsVain(q, p) then IsSaid(o, AddressHintNotHonourable, Note)
      else o.Quiet?
  {
    hide RangeStore.Verdict;
    if HasRange(q) {
      RangeStore.VerdictIsJustified(p.ranges, q.request.Range().value);
    }
  }

  /** What is in the way: the end of the address space, its beginning, or the place itself. */
  function ObstacleTo(q: Requirement, p: Profile): FindingId {
    var r, top, bottom := q.request, p.ranges.maxUserAddress, p.ranges.minMapAddress;
    if HasRange(q) && bottom.Known? && r.address.value < bottom.value then AddressBelowMinimum
    else if !HasRange(q) || (top.Known? && r.address.value + r.size > top.value) then AddressAboveUserSpace
    else ExactAddressUnavailable
  }

  lemma PlacementRules(q: Requirement, p: Profile, report: bool)
    ensures var o := BaselineMapping(q, p, report);
      if LacksAnonymous(q, p) then IsSaid(o, AnonymousMappingUnavailable, Impossibility)
      else if HasUnknownAnonymous(q, p) then IsMissing(o, report) else o.Quiet?
    ensures var o := ExactCapability(q, p);
      if LacksExactMapping(q, p) then IsSaid(o, ExactAddressUnavailable, Impossibility) else o.Quiet?
    ensures var o := NonDestructive(q, p);
      if MayOverwrite(q, p) then IsSaid(o, NonDestructiveUnavailable, Condition) else o.Quiet?
    ensures var o := HintedRelocation(q, p);
      if MayBeMoved(q, p) then IsSaid(o, HintedMappingMayRelocate, Refusal) else o.Quiet?
  {
  }

  /** Two ranges meet where they share an address. */
  lemma WindowIsMet(q: Requirement, p: Profile)
    ensures IsSeenInBounds(q, p) <==>
            RangeStore.Conflicts(p.ranges.available, AddressRange(LowerBound(q), UpperBound(q)))
  {
    var window := AddressRange(LowerBound(q), UpperBound(q));
    if RangeStore.Conflicts(p.ranges.available, window) {
      var k :| 0 <= k < |p.ranges.available| && p.ranges.available[k].range.Intersects(window);
      var r := p.ranges.available[k].range;
      var a: u64 := if r.start > window.start then r.start else window.start;
      assert r.HasAddress(a) && InBounds(q, a);
    }
    if IsSeenInBounds(q, p) {
      var k, a: u64 :| 0 <= k < |p.ranges.available| && p.ranges.available[k].range.HasAddress(a) && InBounds(q, a);
      assert p.ranges.available[k].range.Intersects(window);
    }
  }

  lemma BoundsRule(q: Requirement, p: Profile, report: bool)
    ensures var o := AddressBounds(q, p, report);
      if IsOutOfBounds(q, p) then IsSaid(o, AddressBoundUnsatisfiable, Impossibility)
      else if HasUnseenBounds(q, p) then IsMissing(o, report)
      else if HasTightBounds(q, p) then IsSaid(o, AddressBoundIsTight, Condition)
      else o.Quiet?
  {
    WindowIsMet(q, p);
    hide IsSeenInBounds, RangeStore.Conflicts;
  }

  lemma ExecutionRules(q: Requirement, p: Profile)
    ensures var o := WriteExecute(q, p);
      if IsKeptFromBoth(q, p) then IsSaid(o, WriteExecuteRestricted, Impossibility)
      else if IsKeptFromSwitching(q, p) then IsSaid(o, WriteExecuteRestricted, Refusal)
      else o.Quiet?
    ensures var o := ExecutableMapping(q, p);
      if IsKeptFromExecuting(q, p) then IsSaid(o, ExecutableMappingUnsupported, Impossibility) else o.Quiet?
    ensures var o := JitEntitlement(q, p);
      if NeedsEntitlement(q, p) then IsSaid(o, JitEntitlementRequired, Condition) else o.Quiet?
    ensures var o := ReserveCommit(q, p);
      if CommitsLazily(q, p) then IsSaid(o, ReserveCommitMismatch, Condition) else o.Quiet?
  {
  }

  lemma TruncationRule(q: Requirement, p: Profile)
    ensures var o := Truncation(q, p);
      if !Outreaches(q, p) then o.Quiet?
      else if NoticesWrongAddresses(q) then IsSaid(o, PointerTruncation, Condition)
      else IsSaid(o, PointerTruncation, Impossibility)
  {
    hide Pow2;
  }

  lemma EofRule(q: Requirement, p: Profile, report: bool)
    ensures var o := BeyondEof(q, p, report);
      if PassesEof(q) && p.beyondEof.NotKnown? then IsMissing(o, report)
      else if !ReadsPastEof(q, p) then o.Quiet?
      else if p.beyondEof.value == ZeroFill then IsSaid(o, FileMappingBeyondEof, Condition)
      else IsSaid(o, FileMappingBeyondEof, Refusal)
  {
  }

  // -------------------------------------------------------------------------
  // The findings of a report
  // -------------------------------------------------------------------------

  ghost predicate SomeSays(outcomes: seq<Outcome>, id: FindingId, weight: Weight) {
    exists o :: o in outcomes && IsSaid(o, id, weight)
  }

  ghost predicate Reports(r: Report, id: FindingId, weight: Weight) {
    exists f :: f in r.findings && f.id == id && f.impact == weight.Level() && f.structural == weight.Impossibility?
  }

  ghost predicate SomeAt(outcomes: seq<Outcome>, level: SupportLevel) {
    exists i :: 0 <= i < |outcomes| && LevelOf(outcomes[i]) == level
  }

  ghost predicate SomeStructural(outcomes: seq<Outcome>) {
    exists i :: 0 <= i < |outcomes| && IsStructural(outcomes[i])
  }

  lemma {:induction false} FoldReports(outcomes: seq<Outcome>, id: FindingId, weight: Weight)
    ensures Reports(AbsorbAll(NO_OBJECTION, outcomes), id, weight) <==>
            SomeSays(outcomes, id, weight)
  {
    hide AbsorbAll, Clamped;
    if Reports(AbsorbAll(NO_OBJECTION, outcomes), id, weight) {
      var f :| f in AbsorbAll(NO_OBJECTION, outcomes).findings && f.id == id && f.impact == weight.Level()
               && f.structural == weight.Impossibility?;
      FindingsAreDrafted(outcomes, f);
      var i :| 0 <= i < |outcomes| && outcomes[i].Says? && f == Clamped(outcomes[i].draft);
      ClampedKeeps(outcomes[i].draft);
      assert IsSaid(outcomes[i], id, weight);
    }
    if SomeSays(outcomes, id, weight) {
      var i :| 0 <= i < |outcomes| && IsSaid(outcomes[i], id, weight);
      DraftsAreFound(outcomes, i);
      ClampedKeeps(outcomes[i].draft);
    }
  }

  lemma ClampedKeeps(d: Draft)
    ensures var f := Clamped(d);
      f.id == d.id && f.impact == d.impact && f.structural == d.structural && f.chain == d.chain
  {
  }

  lemma {:induction false} DraftsAreFound(outcomes: seq<Outcome>, i: nat)
    requires i < |outcomes| && outcomes[i].Says?
    ensures Clamped(outcomes[i].draft) in AbsorbAll(NO_OBJECTION, outcomes).findings
  {
    hide Clamped;
    if i < |outcomes| - 1 {
      DraftsAreFound(outcomes[..|outcomes| - 1], i);
    }
  }

  // -------------------------------------------------------------------------
  // The rules together
  // -------------------------------------------------------------------------

  lemma ThirteenAt(e: seq<Outcome>, level: SupportLevel)
    requires |e| == 13
    ensures SomeAt(e, level) <==>
            || LevelOf(e[0]) == level || LevelOf(e[1]) == level || LevelOf(e[2]) == level || LevelOf(e[3]) == level
            || LevelOf(e[4]) == level || LevelOf(e[5]) == level || LevelOf(e[6]) == level || LevelOf(e[7]) == level
            || LevelOf(e[8]) == level || LevelOf(e[9]) == level || LevelOf(e[10]) == level
            || LevelOf(e[11]) == level || LevelOf(e[12]) == level
  {
    hide LevelOf;
  }

  lemma SixAt(e: seq<Outcome>, level: SupportLevel)
    requires |e| == 6
    ensures SomeAt(e, level) <==>
            || LevelOf(e[0]) == level || LevelOf(e[1]) == level || LevelOf(e[2]) == level || LevelOf(e[3]) == level
            || LevelOf(e[4]) == level || LevelOf(e[5]) == level
  {
    hide LevelOf;
  }

  predicate SizeAt(q: Requirement, p: Profile, report: bool, level: SupportLevel) {
    match level
    case Unsupported => || ExceedsSpace(q, p) || IsNotGranted(q, p) || HasOtherPages(q, p)
                        || (IsRounded(q, p) && q.request.reliesOnUnmapped)
    case Unknown => IsUnprobed(q, p) || HasUnknownPages(q, p, report)
    case ConditionallySupported => IsBetween(q, p) || NeedsMoreAlignment(q, p)
    case Supported => true
  }

  predicate PlaceAt(q: Requirement, p: Profile, level: SupportLevel) {
    match level
    case Unsupported => || LacksAnonymous(q, p) || IsOffGranularity(q, p) || IsMisaligned(q) || IsUnplaceable(q, p)
                        || LacksExactMapping(q, p) || MayBeMoved(q, p)
    case Unknown => HasUnknownAnonymous(q, p) || IsUnseenPlace(q, p)
    case ConditionallySupported => MayOverwrite(q, p)
    case Supported => true
  }

  ghost predicate BoundsAt(q: Requirement, p: Profile, level: SupportLevel) {
    match level
    case Unsupported => ContradictsItself(q) || IsOutOfBounds(q, p)
    case Unknown => HasUnseenBounds(q, p) || q.request.maxDisplacement.Some?
    case ConditionallySupported => HasTightBounds(q, p)
    case Supported => true
  }

  predicate UseAt(q: Requirement, p: Profile, level: SupportLevel) {
    match level
    case Unsupported => || IsImpossibleToUse(q, p) || IsKeptFromSwitching(q, p)
                        || (ReadsPastEof(q, p) && p.beyondEof.value != ZeroFill)
    case Unknown => PassesEof(q) && p.beyondEof.NotKnown?
    case ConditionallySupported =>
      || NeedsEntitlement(q, p) || CommitsLazily(q, p) || (Outreaches(q, p) && NoticesWrongAddresses(q))
      || (ReadsPastEof(q, p) && p.beyondEof.value == ZeroFill)
    case Supported => true
  }

  /** The thirteen outcomes before the one that looks at what has been said. */
  lemma EarlyOutcomes(q: Requirement, p: Profile, report: bool, e: seq<Outcome>)
    requires e == EarlyRules(q, p, report)
    ensures |e| == 13
    ensures e[0] == FallbackContradiction(q) && e[1] == BaselineMapping(q, p, report)
    ensures e[2] == SizeFeasibility(q, p) && e[3] == AddressBounds(q, p, report) && e[4] == Displacement(q)
    ensures e[5] == ReservationAlignment(q, p) && e[6] == PageSize(q, p, report) && e[7] == AddressAlignment(q, p)
    ensures e[8] == SizeGranularity(q, p) && e[9] == RangeAvailability(q, p, report) && e[10] == ExactCapability(q, p)
    ensures e[11] == NonDestructive(q, p) && e[12] == HintedRelocation(q, p)
  {
    hide FallbackContradiction, BaselineMapping, SizeFeasibility, AddressBounds, Displacement;
    hide ReservationAlignment, PageSize;
    hide AddressAlignment, SizeGranularity, RangeAvailability, ExactCapability, NonDestructive, HintedRelocation;
  }

  // Some pairs of conditions exclude each other.

  lemma SizesExclude(q: Requirement, p: Profile, report: bool)
    ensures IsUnprobed(q, p) ==> !ExceedsSpace(q, p) && !IsNotGranted(q, p) && !IsBetween(q, p)
    ensures IsNotGranted(q, p) ==> !ExceedsSpace(q, p) && !IsBetween(q, p)
    ensures IsBetween(q, p) ==> !ExceedsSpace(q, p)
    ensures HasOtherPages(q, p) ==> !HasUnknownPages(q, p, report)
  {
  }

  lemma PlacesExclude(q: Requirement, p: Profile)
    ensures LacksAnonymous(q, p) ==> !HasUnknownAnonymous(q, p)
    ensures IsUnseenPlace(q, p) ==> !IsUnplaceable(q, p)
    ensures HintIsVain(q, p) ==> !IsUnplaceable(q, p) && !IsUnseenPlace(q, p)
  {
    hide PlaceLevel;
  }

  lemma BoundsExclude(q: Requirement, p: Profile)
    ensures IsOutOfBounds(q, p) ==> !HasUnseenBounds(q, p) && !HasTightBounds(q, p)
    ensures HasTightBounds(q, p) ==> !HasUnseenBounds(q, p)
  {
    hide IsSeenInBounds;
  }

  lemma UsesExclude(q: Requirement, p: Profile)
    ensures IsKeptFromBoth(q, p) ==> !IsKeptFromSwitching(q, p)
    ensures ReadsPastEof(q, p) ==> p.beyondEof.Known?
  {
  }

  lemma SizeRulesAt(q: Requirement, p: Profile, report: bool, level: SupportLevel)
    requires level != Supported
    ensures SizeAt(q, p, report, level) <==>
            || LevelOf(SizeFeasibility(q, p)) == level || LevelOf(PageSize(q, p, report)) == level
            || LevelOf(SizeGranularity(q, p)) == level || LevelOf(ReservationAlignment(q, p)) == level
  {
    hide SizeFeasibility, PageSize, SizeGranularity, AddressAlignment, ReservationAlignment, FallbackContradiction;
    hide Displacement, ExceedsSpace, IsNotGranted, HasOtherPages, IsRounded, IsUnprobed, HasUnknownPages, IsBetween;
    hide NeedsMoreAlignment, IsMisaligned, IsOffGranularity, ContradictsItself;
    SizesExclude(q, p, report);
    ConsistencyRules(q, p);
    SizeRule(q, p);
    PageRule(q, p, report);
    GranularityRules(q, p);
  }

  lemma PlaceRulesAt(q: Requirement, p: Profile, report: bool, level: SupportLevel)
    requires level != Supported
    ensures PlaceAt(q, p, level) <==>
            || LevelOf(BaselineMapping(q, p, report)) == level || LevelOf(RangeAvailability(q, p, report)) == level
            || LevelOf(ExactCapability(q, p)) == level || LevelOf(NonDestructive(q, p)) == level
            || LevelOf(HintedRelocation(q, p)) == level || LevelOf(AddressAlignment(q, p)) == level
  {
    hide BaselineMapping, RangeAvailability, ExactCapability, NonDestructive, HintedRelocation, AddressAlignment;
    hide SizeGranularity, LacksAnonymous, IsOffGranularity, IsMisaligned, IsUnplaceable, LacksExactMapping, MayBeMoved;
    hide HasUnknownAnonymous, IsUnseenPlace, MayOverwrite, HintIsVain, IsRounded, ObstacleTo;
    PlacesExclude(q, p);
    GranularityRules(q, p);
    PlaceRule(q, p, report);
    PlacementRules(q, p, report);
  }

  lemma BoundsRulesAt(q: Requirement, p: Profile, report: bool, level: SupportLevel)
    requires level != Supported
    ensures BoundsAt(q, p, level) <==>
            || LevelOf(FallbackContradiction(q)) == level || LevelOf(AddressBounds(q, p, report)) == level
            || LevelOf(Displacement(q)) == level
  {
    hide FallbackContradiction, AddressBounds, Displacement, ReservationAlignment;
    hide ContradictsItself, IsOutOfBounds, HasUnseenBounds, HasTightBounds, NeedsMoreAlignment;
    BoundsExclude(q, p);
    ConsistencyRules(q, p);
    BoundsRule(q, p, report);
  }

  lemma UseRulesAt(q: Requirement, p: Profile, report: bool, level: SupportLevel)
    requires level != Supported
    ensures UseAt(q, p, level) <==>
            || LevelOf(WriteExecute(q, p)) == level || LevelOf(ExecutableMapping(q, p)) == level
            || LevelOf(JitEntitlement(q, p)) == level || LevelOf(ReserveCommit(q, p)) == level
            || LevelOf(Truncation(q, p)) == level || LevelOf(BeyondEof(q, p, report)) == level
  {
    hide WriteExecute, ExecutableMapping, JitEntitlement, ReserveCommit, Truncation, BeyondEof;
    hide IsKeptFromBoth, IsKeptFromSwitching, IsKeptFromExecuting, NeedsEntitlement, CommitsLazily, Outreaches;
    hide NoticesWrongAddresses, PassesEof, ReadsPastEof;
    UsesExclude(q, p);
    ExecutionRules(q, p);
    TruncationRule(q, p);
    EofRule(q, p, report);
  }

  lemma LateRulesAt(q: Requirement, p: Profile, report: bool, level: SupportLevel)
    requires level != Supported
    ensures UseAt(q, p, level) <==> SomeAt(LateRules(q, p, report), level)
  {
    hide WriteExecute, ExecutableMapping, JitEntitlement, ReserveCommit, Truncation, BeyondEof, UseAt, LevelOf, SomeAt;
    SixAt(LateRules(q, p, report), level);
    UseRulesAt(q, p, report, level);
  }

  lemma EarlyRulesAt(q: Requirement, p: Profile, report: bool, level: SupportLevel)
    requires level != Supported
    ensures SizeAt(q, p, report, level) || PlaceAt(q, p, level) || BoundsAt(q, p, level) <==>
            SomeAt(EarlyRules(q, p, report), level)
  {
    hide FallbackContradiction, BaselineMapping, SizeFeasibility, AddressBounds, Displacement;
    hide ReservationAlignment, PageSize, EarlyRules, SomeAt, SizeAt, PlaceAt, BoundsAt, LevelOf;
    hide AddressAlignment, SizeGranularity, RangeAvailability, ExactCapability, NonDestructive, HintedRelocation;
    var e := EarlyRules(q, p, report);
    EarlyOutcomes(q, p, report, e);
    ThirteenAt(e, level);
    SizeRulesAt(q, p, report, level);
    PlaceRulesAt(q, p, report, level);
    BoundsRulesAt(q, p, report, level);
  }

  // -------------------------------------------------------------------------
  // Impossibility, and the two outcomes that look at it
  // -------------------------------------------------------------------------

  lemma EarlyImpossibility(q: Requirement, p: Profile, report: bool)
    ensures SomeStructural(EarlyRules(q, p, report)) <==> IsImpossibleToPlace(q, p)
  {
    hide FallbackContradiction, BaselineMapping, SizeFeasibility, AddressBounds, Displacement;
    hide ReservationAlignment, PageSize, EarlyRules, SomeStructural, SomeSaysId;
    hide AddressAlignment, SizeGranularity, RangeAvailability, ExactCapability, NonDestructive, HintedRelocation;
    hide ContradictsItself, NeedsMoreAlignment, ExceedsSpace, IsUnprobed, IsNotGranted, IsBetween;
    hide HasOtherPages, HasUnknownPages, IsRounded, IsMisaligned, IsOffGranularity, IsUnplaceable, IsUnseenPlace;
    hide HintIsVain, ObstacleTo, LacksAnonymous, HasUnknownAnonymous, LacksExactMapping, MayOverwrite, MayBeMoved;
    hide IsOutOfBounds, HasUnseenBounds, HasTightBounds;
    var e := EarlyRules(q, p, report);
    EarlyOutcomes(q, p, report, e);
    ThirteenStructural(e);
    ConsistencyRules(q, p);
    SizeRule(q, p);
    PageRule(q, p, report);
    GranularityRules(q, p);
    PlaceRule(q, p, report);
    PlacementRules(q, p, report);
    BoundsRule(q, p, report);
  }

  lemma EarlyRelocation(q: Requirement, p: Profile, report: bool)
    ensures SomeSaysId(EarlyRules(q, p, report), HintedMappingMayRelocate) <==> MayBeMoved(q, p)
  {
    hide FallbackContradiction, BaselineMapping, SizeFeasibility, AddressBounds, Displacement;
    hide ReservationAlignment, PageSize, EarlyRules, SomeStructural, SomeSaysId;
    hide AddressAlignment, SizeGranularity, RangeAvailability, ExactCapability, NonDestructive, HintedRelocation;
    hide ContradictsItself, NeedsMoreAlignment, ExceedsSpace, IsUnprobed, IsNotGranted, IsBetween;
    hide HasOtherPages, HasUnknownPages, IsRounded, IsMisaligned, IsOffGranularity, IsUnplaceable, IsUnseenPlace;
    hide HintIsVain, ObstacleTo, LacksAnonymous, HasUnknownAnonymous, LacksExactMapping, MayOverwrite, MayBeMoved;
    hide IsOutOfBounds, HasUnseenBounds, HasTightBounds;
    var e := EarlyRules(q, p, report);
    EarlyOutcomes(q, p, report, e);
    ThirteenSay(e, HintedMappingMayRelocate);
    ConsistencyRules(q, p);
    SizeRule(q, p);
    PageRule(q, p, report);
    GranularityRules(q, p);
    PlaceRule(q, p, report);
    PlacementRules(q, p, report);
    BoundsRule(q, p, report);
    ObstaclesArePlaces(q, p);
  }

  lemma ObstaclesArePlaces(q: Requirement, p: Profile)
    ensures ObstacleTo(q, p) in {AddressBelowMinimum, AddressAboveUserSpace, ExactAddressUnavailable}
  {
  }

  ghost predicate SomeSaysId(outcomes: seq<Outcome>, id: FindingId) {
    exists i :: 0 <= i < |outcomes| && SaysId(outcomes[i], id)
  }

  lemma ThirteenStructural(e: seq<Outcome>)
    requires |e| == 13
    ensures SomeStructural(e) <==>
            || IsStructural(e[0]) || IsStructural(e[1]) || IsStructural(e[2]) || IsStructural(e[3])
            || IsStructural(e[4]) || IsStructural(e[5]) || IsStructural(e[6]) || IsStructural(e[7])
            || IsStructural(e[8]) || IsStructural(e[9]) || IsStructural(e[10]) || IsStructural(e[11])
            || IsStructural(e[12])
  {
    hide IsStructural;
  }

  lemma ThirteenSay(e: seq<Outcome>, id: FindingId)
    requires |e| == 13
    ensures SomeSaysId(e, id) <==>
            || SaysId(e[0], id) || SaysId(e[1], id) || SaysId(e[2], id) || SaysId(e[3], id) || SaysId(e[4], id)
            || SaysId(e[5], id) || SaysId(e[6], id) || SaysId(e[7], id) || SaysId(e[8], id) || SaysId(e[9], id)
            || SaysId(e[10], id) || SaysId(e[11], id) || SaysId(e[12], id)
  {
    hide SaysId;
  }

  lemma LateImpossibility(q: Requirement, p: Profile, report: bool)
    ensures SomeStructural(LateRules(q, p, report)) <==> IsImpossibleToUse(q, p)
  {
    hide WriteExecute, ExecutableMapping, JitEntitlement, ReserveCommit, Truncation, BeyondEof;
    hide IsKeptFromBoth, IsKeptFromSwitching, IsKeptFromExecuting, NeedsEntitlement, CommitsLazily, Outreaches;
    hide NoticesWrongAddresses, PassesEof, ReadsPastEof, SomeStructural;
    Six(LateRules(q, p, report));
    ExecutionRules(q, p);
    TruncationRule(q, p);
    EofRule(q, p, report);
  }

  lemma Six(e: seq<Outcome>)
    requires |e| == 6
    ensures SomeStructural(e) <==>
            || IsStructural(e[0]) || IsStructural(e[1]) || IsStructural(e[2]) || IsStructural(e[3])
            || IsStructural(e[4]) || IsStructural(e[5])
  {
    hide IsStructural;
  }

  lemma RunRemembers(r: Report, outcomes: seq<Outcome>)
    ensures ProvedImpossible(AbsorbAll(r, outcomes).findings) <==>
            ProvedImpossible(r.findings) || SomeStructural(outcomes)
    ensures Said(AbsorbAll(r, outcomes).findings, HintedMappingMayRelocate) <==>
            Said(r.findings, HintedMappingMayRelocate) || SomeSaysId(outcomes, HintedMappingMayRelocate)
  {
    hide AbsorbAll, Said, ProvedImpossible, SaysId, IsStructural;
    FoldRemembers(r, outcomes, HintedMappingMayRelocate);
  }

  lemma IdentityRule(q: Requirement, p: Profile, report: bool)
    ensures var o := IdentityOutcome(q, AfterEarly(q, p, report));
      if IsFragile(q) && !MayBeMoved(q, p) && !IsImpossibleToPlace(q, p)
      then IsSaid(o, IdentityWithoutTranslation, Condition) else o.Quiet?
  {
    hide AbsorbAll, EarlyRules, Said, ProvedImpossible, MayBeMoved, IsImpossibleToPlace, SomeStructural, SomeSaysId;
    NothingSaid();
    RunRemembers(NO_OBJECTION, EarlyRules(q, p, report));
    EarlyImpossibility(q, p, report);
    EarlyRelocation(q, p, report);
  }

  lemma RetryRule(q: Requirement, p: Profile, report: bool)
    ensures ProvedImpossible(AfterLate(q, p, report).findings) <==> IsImpossible(q, p)
    ensures var o := RetryOutcome(q, AfterLate(q, p, report));
      if q.retries && IsImpossible(q, p) then IsSaid(o, PermanentErrorRetried, Refusal) else o.Quiet?
  {
    hide AbsorbAll, EarlyRules, LateRules, Said, ProvedImpossible, MayBeMoved, IsImpossibleToPlace, IsImpossibleToUse;
    hide SomeStructural, SomeSaysId, Absorb, IdentityOutcome, Inherited, IsFragile;
    var r := AfterEarly(q, p, report);
    var o := IdentityOutcome(q, r);
    NothingSaid();
    RunRemembers(NO_OBJECTION, EarlyRules(q, p, report));
    RunRemembers(Absorb(r, o), LateRules(q, p, report));
    AppendRemembers(r, o, HintedMappingMayRelocate);
    EarlyImpossibility(q, p, report);
    LateImpossibility(q, p, report);
    IdentityRule(q, p, report);
  }

  // -------------------------------------------------------------------------
  // The levels, exactly
  // -------------------------------------------------------------------------

  lemma FourParts(a: seq<Outcome>, x: Outcome, b: seq<Outcome>, y: Outcome, level: SupportLevel)
    ensures SomeAt(a + [x] + b + [y], level) <==>
            SomeAt(a, level) || LevelOf(x) == level || SomeAt(b, level) || LevelOf(y) == level
  {
    hide LevelOf;
    var all := a + [x] + b + [y];
    assert all[|a|] == x && all[|all| - 1] == y;
    assert forall i :: 0 <= i < |a| ==> all[i] == a[i];
    assert forall i :: 0 <= i < |b| ==> all[|a| + 1 + i] == b[i];
    if SomeAt(all, level) {
      var i :| 0 <= i < |all| && LevelOf(all[i]) == level;
      assert all[i] == if i < |a| then a[i] else if i == |a| then x else if i < |all| - 1 then b[i - |a| - 1] else y;
    }
  }

  lemma OverallIsHighest(q: Requirement, p: Profile, report: bool)
    requires q.operation != OtherOperation
    ensures var r, all := Assess(q, p, report).overall, Outcomes(q, p, report);
      && (r == Unsupported <==> SomeAt(all, Unsupported))
      && (r == Unknown <==> !SomeAt(all, Unsupported) && SomeAt(all, Unknown))
      && (r == ConditionallySupported <==>
          !SomeAt(all, Unsupported) && !SomeAt(all, Unknown) && SomeAt(all, ConditionallySupported))
  {
    hide Assess, Outcomes, LevelOf;
    OverallIsJoin(q, p, report);
  }

  lemma AllAt(q: Requirement, p: Profile, report: bool, level: SupportLevel)
    requires level != Supported
    ensures SomeAt(Outcomes(q, p, report), level) <==>
            || SizeAt(q, p, report, level) || PlaceAt(q, p, level) || BoundsAt(q, p, level) || UseAt(q, p, level)
            || LevelOf(IdentityOutcome(q, AfterEarly(q, p, report))) == level
            || LevelOf(RetryOutcome(q, AfterLate(q, p, report))) == level
  {
    hide EarlyRules, LateRules, AfterEarly, AfterLate, IdentityOutcome, RetryOutcome, LevelOf, SomeAt;
    hide SizeAt, PlaceAt, BoundsAt, UseAt;
    var identity, retry := IdentityOutcome(q, AfterEarly(q, p, report)), RetryOutcome(q, AfterLate(q, p, report));
    FourParts(EarlyRules(q, p, report), identity, LateRules(q, p, report), retry, level);
    EarlyRulesAt(q, p, report, level);
    LateRulesAt(q, p, report, level);
  }

  /**
   * UNSUPPORTED, UNKNOWN and CONDITIONALLY_SUPPORTED, exactly: something is impossible or refused; nothing
   * is and something that decides is not known; neither, and something depends on what the program does.
   */
  lemma LevelsExactly(q: Requirement, p: Profile, report: bool)
    requires q.operation != OtherOperation
    ensures var level := Assess(q, p, report).overall;
      && (level == Unsupported <==> IsImpossible(q, p) || IsRefused(q, p))
      && (level == Unknown <==> !IsImpossible(q, p) && !IsRefused(q, p) && IsUndecided(q, p, report))
      && (level == ConditionallySupported <==>
          !IsImpossible(q, p) && !IsRefused(q, p) && !IsUndecided(q, p, report) && IsConditional(q, p))
  {
    hide Assess, Outcomes, AfterEarly, AfterLate, IdentityOutcome, RetryOutcome, SomeAt;
    hide ContradictsItself, NeedsMoreAlignment, ExceedsSpace, IsUnprobed, IsNotGranted, IsBetween;
    hide HasOtherPages, HasUnknownPages, IsRounded, IsMisaligned, IsOffGranularity, IsUnplaceable, IsUnseenPlace;
    hide LacksAnonymous, HasUnknownAnonymous, LacksExactMapping, MayOverwrite, MayBeMoved;
    hide IsOutOfBounds, HasUnseenBounds, HasTightBounds, IsFragile;
    hide IsKeptFromBoth, IsKeptFromSwitching, IsKeptFromExecuting, NeedsEntitlement, CommitsLazily, Outreaches;
    hide NoticesWrongAddresses, PassesEof, ReadsPastEof;
    OverallIsHighest(q, p, report);
    AllAt(q, p, report, Unsupported);
    AllAt(q, p, report, Unknown);
    AllAt(q, p, report, ConditionallySupported);
    IdentityRule(q, p, report);
    RetryRule(q, p, report);
  }

  /** Some finding proves impossibility exactly when something is impossible. */
  lemma ImpossibleExactly(q: Requirement, p: Profile, report: bool)
    requires q.operation != OtherOperation
    ensures ProvedImpossible(Assess(q, p, report).findings) <==> IsImpossible(q, p)
  {
    hide AfterLate, RetryOutcome, ProvedImpossible, IsImpossible;
    RetryRule(q, p, report);
    AppendRemembers(AfterLate(q, p, report), RetryOutcome(q, AfterLate(q, p, report)), HintedMappingMayRelocate);
  }

  // -------------------------------------------------------------------------
  // The findings, exactly
  // -------------------------------------------------------------------------

  predicate SizeWarrants(q: Requirement, p: Profile, report: bool, id: FindingId, weight: Weight) {
    match id
    case SizeExceedsAddressSpace => weight == Impossibility && ExceedsSpace(q, p)
    case ReservationGrantabilityUnknown => weight == Doubt && IsUnprobed(q, p)
    case SizeExceedsGrantedReservation =>
      (weight == Refusal && IsNotGranted(q, p)) || (weight == Condition && IsBetween(q, p))
    case PageSizeMismatch => weight == Impossibility && HasOtherPages(q, p)
    case RequiredFactUnknown => weight == Doubt && HasUnknownPages(q, p, report)
    case _ => false
  }

  predicate AlignmentWarrants(q: Requirement, p: Profile, id: FindingId, weight: Weight) {
    match id
    case SizeGranularityMismatch => IsRounded(q, p) && weight == if q.request.reliesOnUnmapped then Refusal else Note
    case ReservationAlignmentUnguaranteed => weight == Condition && NeedsMoreAlignment(q, p)
    case AddressAlignmentMismatch =>
      || (weight == Refusal && IsMisaligned(q))
      || (weight == Impossibility && !IsMisaligned(q) && IsOffGranularity(q, p))
    case _ => false
  }

  predicate PlaceWarrants(q: Requirement, p: Profile, report: bool, id: FindingId, weight: Weight) {
    match id
    case AddressHintNotHonourable => weight == Note && HintIsVain(q, p)
    case RequiredFactUnknown => weight == Doubt && report && IsUnseenPlace(q, p)
    case _ => weight == Impossibility && IsUnplaceable(q, p) && id == ObstacleTo(q, p)
  }

  predicate MappingWarrants(q: Requirement, p: Profile, report: bool, id: FindingId, weight: Weight) {
    match id
    case AnonymousMappingUnavailable => weight == Impossibility && LacksAnonymous(q, p)
    case RequiredFactUnknown => weight == Doubt && report && HasUnknownAnonymous(q, p)
    case ExactAddressUnavailable => weight == Impossibility && LacksExactMapping(q, p)
    case NonDestructiveUnavailable => weight == Condition && MayOverwrite(q, p)
    case HintedMappingMayRelocate => weight == Refusal && MayBeMoved(q, p)
    case _ => false
  }

  ghost predicate BoundsWarrant(q: Requirement, p: Profile, report: bool, id: FindingId, weight: Weight) {
    match id
    case InvalidFallbackContract => weight == Refusal && ContradictsItself(q)
    case AddressBoundUnsatisfiable => weight == Impossibility && IsOutOfBounds(q, p)
    case RequiredFactUnknown => weight == Doubt && report && HasUnseenBounds(q, p)
    case AddressBoundIsTight => weight == Condition && HasTightBounds(q, p)
    case DisplacementNotEvaluable => weight == Doubt && q.request.maxDisplacement.Some?
    case _ => false
  }

  predicate PolicyWarrants(q: Requirement, p: Profile, id: FindingId, weight: Weight) {
    match id
    case WriteExecuteRestricted =>
      (weight == Impossibility && IsKeptFromBoth(q, p)) || (weight == Refusal && IsKeptFromSwitching(q, p))
    case ExecutableMappingUnsupported => weight == Impossibility && IsKeptFromExecuting(q, p)
    case JitEntitlementRequired => weight == Condition && NeedsEntitlement(q, p)
    case ReserveCommitMismatch => weight == Condition && CommitsLazily(q, p)
    case _ => false
  }

  predicate AccessWarrants(q: Requirement, p: Profile, report: bool, id: FindingId, weight: Weight) {
    match id
    case PointerTruncation =>
      Outreaches(q, p) && weight == if NoticesWrongAddresses(q) then Condition else Impossibility
    case RequiredFactUnknown => weight == Doubt && report && PassesEof(q) && p.beyondEof.NotKnown?
    case FileMappingBeyondEof =>
      ReadsPastEof(q, p) && weight == if p.beyondEof.value == ZeroFill then Condition else Refusal
    case _ => false
  }

  predicate LookingBackWarrants(q: Requirement, p: Profile, id: FindingId, weight: Weight) {
    match id
    case IdentityWithoutTranslation =>
      && weight == Condition
      && IsFragile(q) && !MayBeMoved(q, p) && !IsImpossibleToPlace(q, p)
    case PermanentErrorRetried => weight == Refusal && q.retries && IsImpossible(q, p)
    case _ => false
  }

  lemma SizeFindings(q: Requirement, p: Profile, report: bool, id: FindingId, weight: Weight)
    ensures SizeWarrants(q, p, report, id, weight) <==>
            IsSaid(SizeFeasibility(q, p), id, weight) || IsSaid(PageSize(q, p, report), id, weight)
  {
    hide SizeFeasibility, PageSize, ExceedsSpace, IsNotGranted, HasOtherPages, IsUnprobed, HasUnknownPages, IsBetween;
    SizesExclude(q, p, report);
    SizeRule(q, p);
    PageRule(q, p, report);
  }

  lemma AlignmentFindings(q: Requirement, p: Profile, id: FindingId, weight: Weight)
    ensures AlignmentWarrants(q, p, id, weight) <==>
            || IsSaid(SizeGranularity(q, p), id, weight) || IsSaid(ReservationAlignment(q, p), id, weight)
            || IsSaid(AddressAlignment(q, p), id, weight)
  {
    hide SizeGranularity, AddressAlignment, ReservationAlignment, FallbackContradiction, Displacement;
    hide IsRounded, NeedsMoreAlignment, IsMisaligned, IsOffGranularity, ContradictsItself;
    ConsistencyRules(q, p);
    GranularityRules(q, p);
  }

  lemma PlaceFindings(q: Requirement, p: Profile, report: bool, id: FindingId, weight: Weight)
    ensures PlaceWarrants(q, p, report, id, weight) <==> IsSaid(RangeAvailability(q, p, report), id, weight)
  {
    hide RangeAvailability, IsUnplaceable, IsUnseenPlace, HintIsVain, ObstacleTo;
    PlacesExclude(q, p);
    PlaceRule(q, p, report);
    ObstaclesArePlaces(q, p);
  }

  lemma MappingFindings(q: Requirement, p: Profile, report: bool, id: FindingId, weight: Weight)
    ensures MappingWarrants(q, p, report, id, weight) <==>
            || IsSaid(BaselineMapping(q, p, report), id, weight) || IsSaid(ExactCapability(q, p), id, weight)
            || IsSaid(NonDestructive(q, p), id, weight) || IsSaid(HintedRelocation(q, p), id, weight)
  {
    hide BaselineMapping, ExactCapability, NonDestructive, HintedRelocation;
    hide LacksAnonymous, LacksExactMapping, MayBeMoved, HasUnknownAnonymous, MayOverwrite;
    PlacesExclude(q, p);
    PlacementRules(q, p, report);
  }

  lemma BoundsFindings(q: Requirement, p: Profile, report: bool, id: FindingId, weight: Weight)
    ensures BoundsWarrant(q, p, report, id, weight) <==>
            || IsSaid(FallbackContradiction(q), id, weight) || IsSaid(AddressBounds(q, p, report), id, weight)
            || IsSaid(Displacement(q), id, weight)
  {
    hide FallbackContradiction, AddressBounds, Displacement, ReservationAlignment;
    hide ContradictsItself, IsOutOfBounds, HasUnseenBounds, HasTightBounds, NeedsMoreAlignment;
    BoundsExclude(q, p);
    ConsistencyRules(q, p);
    BoundsRule(q, p, report);
  }

  lemma PolicyFindings(q: Requirement, p: Profile, report: bool, id: FindingId, weight: Weight)
    ensures PolicyWarrants(q, p, id, weight) <==>
            || IsSaid(WriteExecute(q, p), id, weight) || IsSaid(ExecutableMapping(q, p), id, weight)
            || IsSaid(JitEntitlement(q, p), id, weight) || IsSaid(ReserveCommit(q, p), id, weight)
  {
    hide WriteExecute, ExecutableMapping, JitEntitlement, ReserveCommit;
    hide IsKeptFromBoth, IsKeptFromSwitching, IsKeptFromExecuting, NeedsEntitlement, CommitsLazily;
    UsesExclude(q, p);
    ExecutionRules(q, p);
  }

  lemma AccessFindings(q: Requirement, p: Profile, report: bool, id: FindingId, weight: Weight)
    ensures AccessWarrants(q, p, report, id, weight) <==>
            IsSaid(Truncation(q, p), id, weight) || IsSaid(BeyondEof(q, p, report), id, weight)
  {
    hide Truncation, BeyondEof, Outreaches, NoticesWrongAddresses, PassesEof, ReadsPastEof;
    UsesExclude(q, p);
    TruncationRule(q, p);
    EofRule(q, p, report);
  }

  lemma ThirteenSaid(e: seq<Outcome>, id: FindingId, weight: Weight)
    requires |e| == 13
    ensures SomeSays(e, id, weight) <==>
            || IsSaid(e[0], id, weight) || IsSaid(e[1], id, weight) || IsSaid(e[2], id, weight)
            || IsSaid(e[3], id, weight) || IsSaid(e[4], id, weight) || IsSaid(e[5], id, weight)
            || IsSaid(e[6], id, weight) || IsSaid(e[7], id, weight) || IsSaid(e[8], id, weight)
            || IsSaid(e[9], id, weight) || IsSaid(e[10], id, weight) || IsSaid(e[11], id, weight)
            || IsSaid(e[12], id, weight)
  {
    hide IsSaid;
  }

  lemma EarlyFindings(q: Requirement, p: Profile, report: bool, id: FindingId, weight: Weight)
    ensures SomeSays(EarlyRules(q, p, report), id, weight) <==>
            || SizeWarrants(q, p, report, id, weight) || AlignmentWarrants(q, p, id, weight)
            || PlaceWarrants(q, p, report, id, weight) || MappingWarrants(q, p, report, id, weight)
            || BoundsWarrant(q, p, report, id, weight)
  {
    hide FallbackContradiction, BaselineMapping, SizeFeasibility, AddressBounds, Displacement;
    hide ReservationAlignment, PageSize, EarlyRules, SomeSays, IsSaid;
    hide SizeWarrants, AlignmentWarrants, PlaceWarrants, MappingWarrants, BoundsWarrant;
    hide AddressAlignment, SizeGranularity, RangeAvailability, ExactCapability, NonDestructive, HintedRelocation;
    var e := EarlyRules(q, p, report);
    EarlyOutcomes(q, p, report, e);
    ThirteenSaid(e, id, weight);
    SizeFindings(q, p, report, id, weight);
    AlignmentFindings(q, p, id, weight);
    PlaceFindings(q, p, report, id, weight);
    MappingFindings(q, p, report, id, weight);
    BoundsFindings(q, p, report, id, weight);
  }

  lemma SixSaid(e: seq<Outcome>, id: FindingId, weight: Weight)
    requires |e| == 6
    ensures SomeSays(e, id, weight) <==>
            || IsSaid(e[0], id, weight) || IsSaid(e[1], id, weight) || IsSaid(e[2], id, weight)
            || IsSaid(e[3], id, weight) || IsSaid(e[4], id, weight) || IsSaid(e[5], id, weight)
  {
    hide IsSaid;
  }

  lemma LateFindings(q: Requirement, p: Profile, report: bool, id: FindingId, weight: Weight)
    ensures SomeSays(LateRules(q, p, report), id, weight) <==>
            PolicyWarrants(q, p, id, weight) || AccessWarrants(q, p, report, id, weight)
  {
    hide WriteExecute, ExecutableMapping, JitEntitlement, ReserveCommit, Truncation, BeyondEof;
    hide SomeSays, PolicyWarrants, AccessWarrants, IsSaid;
    SixSaid(LateRules(q, p, report), id, weight);
    PolicyFindings(q, p, report, id, weight);
    AccessFindings(q, p, report, id, weight);
  }

  lemma FourSaid(a: seq<Outcome>, x: Outcome, b: seq<Outcome>, y: Outcome, id: FindingId, weight: Weight)
    ensures SomeSays(a + [x] + b + [y], id, weight) <==>
            SomeSays(a, id, weight) || IsSaid(x, id, weight) || SomeSays(b, id, weight) || IsSaid(y, id, weight)
  {
    hide IsSaid;
    assert forall o :: o in a + [x] + b + [y] <==> o in a || o == x || o in b || o == y;
  }

  /** A finding of a given name, level and claim of impossibility is in the report exactly when this warrants it. */
  lemma FindingsExactly(q: Requirement, p: Profile, report: bool, id: FindingId, weight: Weight)
    requires q.operation != OtherOperation
    ensures Reports(Assess(q, p, report), id, weight) <==>
            || SizeWarrants(q, p, report, id, weight) || AlignmentWarrants(q, p, id, weight)
            || PlaceWarrants(q, p, report, id, weight) || MappingWarrants(q, p, report, id, weight)
            || BoundsWarrant(q, p, report, id, weight)
            || PolicyWarrants(q, p, id, weight) || AccessWarrants(q, p, report, id, weight)
            || LookingBackWarrants(q, p, id, weight)
  {
    hide Assess, EarlyRules, LateRules, AfterEarly, AfterLate, IdentityOutcome, RetryOutcome, AbsorbAll;
    hide SomeSays, Reports, SizeWarrants, AlignmentWarrants, PlaceWarrants, MappingWarrants, BoundsWarrant;
    hide PolicyWarrants, AccessWarrants;
    hide IsFragile, MayBeMoved, IsImpossibleToPlace, IsImpossible;
    AssessIsFold(q, p, report);
    FoldReports(Outcomes(q, p, report), id, weight);
    FourSaid(EarlyRules(q, p, report), IdentityOutcome(q, AfterEarly(q, p, report)), LateRules(q, p, report),
             RetryOutcome(q, AfterLate(q, p, report)), id, weight);
    EarlyFindings(q, p, report, id, weight);
    LateFindings(q, p, report, id, weight);
    IdentityRule(q, p, report);
    RetryRule(q, p, report);
  }

  /**
   * An address that matters: where the range is known to be unmappable the verdict is UNSUPPORTED and a
   * finding proves it; where nothing is known of the range the verdict is at least UNKNOWN, and nothing
   * is impossible for that.
   */
  lemma PlaceDecides(q: Requirement, p: Profile, report: bool)
    requires q.operation != OtherOperation && AddressMatters(q) && HasRange(q)
    ensures var r := Assess(q, p, report);
      match PlaceLevel(q, p)
      case Unsupported => r.overall == Unsupported && Reports(r, ObstacleTo(q, p), Impossibility)
      case Unknown =>
        && r.overall.Rank() >= Unknown.Rank()
        && (ProvedImpossible(r.findings) <==> IsImpossibleAnywhere(q, p) || IsImpossibleToUse(q, p))
      case _ => true
  {
    hide Assess, ProvedImpossible, Reports, IsImpossibleAnywhere, IsImpossibleToUse, ObstacleTo, PlaceLevel;
    LevelsExactly(q, p, report);
    ImpossibleExactly(q, p, report);
    ObstaclesArePlaces(q, p);
    FindingsExactly(q, p, report, ObstacleTo(q, p), Impossibility);
  }
}
