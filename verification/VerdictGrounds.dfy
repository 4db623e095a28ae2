/** What the findings rest on, and whether they say so. */
module VerdictGrounds {
  import opened Multiples
  import opened Wrappers
  import opened Words
  import opened Evidence
  import opened Ranges
  import RangeStore
  import opened VerdictRules
  import opened VerdictEngine
  import opened VerdictClaims
  import opened VerdictLevels

  // -------------------------------------------------------------------------
  // The evidence a finding names
  // -------------------------------------------------------------------------

  /** The chain holds the program's claim and these classes, and no other. */
  predicate Names(q: Requirement, chain: seq<EvidenceClass>, grounds: set<EvidenceClass>) {
    forall e :: e in chain <==> e == q.claim || e in grounds
  }

  /** The granted reservation that bounds this caller, and how it is known. */
  function GrantEvidence(q: Requirement, p: Profile): EvidenceClass {
    var plain, hinted := p.maxReservation, p.maxReservationHinted;
    if plain.Known? && hinted.Known? && hinted.value > plain.value
       && q.request.address.Some? && q.request.address.value > plain.value
    then hinted.evidence else plain.Evidence()
  }

  function PlaceEvidence(q: Requirement, p: Profile): EvidenceClass {
    if !HasRange(q) then SpecifiedGuarantee
    else
      var a := q.request.address.value;
      RangeStore.Verdict(p.ranges, AddressRange(a, a + q.request.size)).evidence
  }

  /** Which of its three reasons a bound is out of reach for. */
  predicate NamesBound(q: Requirement, p: Profile, chain: seq<EvidenceClass>) {
    var r, top, bottom := q.request, p.ranges.maxUserAddress, p.ranges.minMapAddress;
    if HasBounds(q) && r.address.Some? && !InBounds(q, r.address.value) then Names(q, chain, {SpecifiedGuarantee})
    else if r.addressMin.Some? && top.Known? && top.value <= r.addressMin.value then Names(q, chain, {top.evidence})
    else Names(q, chain, {bottom.Evidence()})
  }

  predicate NamesPolicy(q: Requirement, p: Profile, chain: seq<EvidenceClass>) {
    var both, switch := p.writeExecute, p.writeThenExecute;
    if !WritesWhileExecuting(q) then Names(q, chain, {switch.Evidence()})
    else if switch.Known? && switch.value then Names(q, chain, {both.Evidence(), switch.evidence})
    else Names(q, chain, {both.Evidence()})
  }

  predicate NamesPlace(q: Requirement, p: Profile, chain: seq<EvidenceClass>) {
    || (LacksExactMapping(q, p) && Names(q, chain, {p.exactMapping.Evidence()}))
    || (IsUnplaceable(q, p) && ObstacleTo(q, p) == ExactAddressUnavailable && Names(q, chain, {PlaceEvidence(q, p)}))
  }

  /** The evidence of each finding but the one about the others. */
  predicate NamesItsGrounds(q: Requirement, p: Profile, id: FindingId, chain: seq<EvidenceClass>) {
    var top := p.ranges.maxUserAddress.Evidence();
    match id
    case InvalidFallbackContract => Names(q, chain, {SpecifiedGuarantee})
    case RequiredFactUnknown => Names(q, chain, {UnknownEvidence})
    case AnonymousMappingUnavailable => Names(q, chain, {p.anonymousMapping.Evidence()})
    case SizeExceedsAddressSpace => Names(q, chain, {top, SpecifiedGuarantee})
    case ReservationGrantabilityUnknown => Names(q, chain, {UnknownEvidence})
    case SizeExceedsGrantedReservation => Names(q, chain, {GrantEvidence(q, p), SpecifiedGuarantee})
    case AddressBoundUnsatisfiable => NamesBound(q, p, chain)
    case AddressBoundIsTight => Names(q, chain, {top, HeuristicRisk})
    case DisplacementNotEvaluable => Names(q, chain, {UnknownEvidence})
    case ReservationAlignmentUnguaranteed => Names(q, chain, {p.granularity.Evidence(), SpecifiedGuarantee})
    case PageSizeMismatch => Names(q, chain, {p.pageSize.Evidence()})
    case AddressAlignmentMismatch =>
      Names(q, chain, {SpecifiedGuarantee} + if IsMisaligned(q) then {} else {p.granularity.Evidence()})
    case SizeGranularityMismatch => Names(q, chain, {p.granularity.Evidence()})
    case AddressHintNotHonourable => Names(q, chain, {PlaceEvidence(q, p)})
    case AddressAboveUserSpace => Names(q, chain, {PlaceEvidence(q, p)})
    case AddressBelowMinimum => Names(q, chain, {PlaceEvidence(q, p)})
    case ExactAddressUnavailable => NamesPlace(q, p, chain)
    case NonDestructiveUnavailable => Names(q, chain, {p.fixedNoReplace.Evidence()})
    case HintedMappingMayRelocate => Names(q, chain, {p.hintedMayRelocate.Evidence(), BoundedCounterexample})
    case IdentityWithoutTranslation => Names(q, chain, {HeuristicRisk})
    case WriteExecuteRestricted => NamesPolicy(q, p, chain)
    case ExecutableMappingUnsupported => Names(q, chain, {p.anonymousExecutable.Evidence()})
    case JitEntitlementRequired => Names(q, chain, {p.jitEntitlement.Evidence()})
    case ReserveCommitMismatch => Names(q, chain, {p.commitModel.Evidence()})
    case PointerTruncation => Names(q, chain, {SpecifiedGuarantee})
    case FileMappingBeyondEof => Names(q, chain, {p.beyondEof.Evidence()})
    case PermanentErrorRetried => true
  }

  /** What a finding would like to claim. */
  function Asked(id: FindingId, impact: SupportLevel): Confidence {
    if impact == Unknown || id == IdentityWithoutTranslation
       || (id == SizeExceedsGrantedReservation && impact == ConditionallySupported) then Hypothesis
    else if id == AddressBoundIsTight then Predictive
    else if id == HintedMappingMayRelocate then Counterexample
    else Proven
  }

  predicate Follows(q: Requirement, p: Profile, o: Outcome) {
    o.Says? ==> NamesItsGrounds(q, p, o.draft.id, o.draft.chain) && o.draft.desired == Asked(o.draft.id, o.draft.impact)
  }

  lemma ClaimRulesFollow(q: Requirement, p: Profile, report: bool)
    ensures Follows(q, p, FallbackContradiction(q)) && Follows(q, p, Displacement(q))
    ensures Follows(q, p, PageSize(q, p, report))
  {
    hide PageRelationHolds;
  }

  lemma SizeChains(q: Requirement, p: Profile)
    ensures var o := SizeFeasibility(q, p);
      o.Says? ==>
        match o.draft.id
        case SizeExceedsAddressSpace =>
          Names(q, o.draft.chain, {p.ranges.maxUserAddress.Evidence(), SpecifiedGuarantee}) && o.draft.desired == Proven
        case SizeExceedsGrantedReservation =>
          && Names(q, o.draft.chain, {GrantEvidence(q, p), SpecifiedGuarantee})
          && o.draft.desired == if o.draft.impact == ConditionallySupported then Hypothesis else Proven
        case ReservationGrantabilityUnknown =>
          Names(q, o.draft.chain, {UnknownEvidence}) && o.draft.desired == Hypothesis
        case _ => false
  {
  }

  lemma SizeRuleFollows(q: Requirement, p: Profile)
    ensures Follows(q, p, SizeFeasibility(q, p))
  {
    hide SizeFeasibility, GrantEvidence, Names, ExceedsSpace, IsUnprobed, IsNotGranted, IsBetween;
    SizeRule(q, p);
    SizeChains(q, p);
  }

  lemma AlignmentRulesFollow(q: Requirement, p: Profile)
    ensures Follows(q, p, ReservationAlignment(q, p)) && Follows(q, p, SizeGranularity(q, p))
  {
    hide IsPowerOfTwo, RoundUp;
  }

  lemma AddressRuleFollows(q: Requirement, p: Profile)
    ensures Follows(q, p, AddressAlignment(q, p))
  {
    hide IsPowerOfTwo;
  }

  lemma MappingRulesFollow(q: Requirement, p: Profile, report: bool)
    ensures Follows(q, p, BaselineMapping(q, p, report)) && Follows(q, p, ExactCapability(q, p))
  {
  }

  lemma MovingRulesFollow(q: Requirement, p: Profile)
    ensures Follows(q, p, NonDestructive(q, p)) && Follows(q, p, HintedRelocation(q, p))
  {
  }

  lemma BoundsRuleFollows(q: Requirement, p: Profile, report: bool)
    ensures Follows(q, p, AddressBounds(q, p, report))
  {
    hide RangeStore.Conflicts;
  }

  lemma PlaceChains(q: Requirement, p: Profile, report: bool)
    ensures var o := RangeAvailability(q, p, report);
      o.Says? ==>
        if o.draft.id == RequiredFactUnknown
        then Names(q, o.draft.chain, {UnknownEvidence}) && o.draft.desired == Hypothesis
        else Names(q, o.draft.chain, {PlaceEvidence(q, p)}) && o.draft.desired == Proven
  {
    hide RangeStore.Verdict, Obstacle;
    ObstaclesAreThree(q, p);
    hide RangeStore.Level;
    if HasRange(q) {
      RangeStore.VerdictIsJustified(p.ranges, q.request.Range().value);
    }
  }

  lemma ObstaclesAreThree(q: Requirement, p: Profile)
    ensures forall r :: Obstacle(p, r) != RequiredFactUnknown
  {
  }

  lemma PlaceRuleFollows(q: Requirement, p: Profile, report: bool)
    ensures Follows(q, p, RangeAvailability(q, p, report))
  {
    hide RangeAvailability, PlaceEvidence, Names, IsUnplaceable, IsUnseenPlace, HintIsVain, ObstacleTo;
    PlaceRule(q, p, report);
    PlaceChains(q, p, report);
    ObstaclesArePlaces(q, p);
  }

  lemma WriteExecuteFollows(q: Requirement, p: Profile)
    ensures Follows(q, p, WriteExecute(q, p))
  {
  }

  lemma PolicyRulesFollow(q: Requirement, p: Profile)
    ensures Follows(q, p, ExecutableMapping(q, p)) && Follows(q, p, JitEntitlement(q, p))
  {
  }

  lemma CommitRulesFollow(q: Requirement, p: Profile, report: bool)
    ensures Follows(q, p, ReserveCommit(q, p)) && Follows(q, p, BeyondEof(q, p, report))
  {
    hide ReadsPartialPage, MappingEnd;
  }

  lemma TruncationRuleFollows(q: Requirement, p: Profile)
    ensures Follows(q, p, Truncation(q, p))
  {
    hide Highest;
  }

  predicate AllFollow(q: Requirement, p: Profile, outcomes: seq<Outcome>) {
    forall i :: 0 <= i < |outcomes| ==> Follows(q, p, outcomes[i])
  }

  lemma EarlyFollow(q: Requirement, p: Profile, report: bool)
    ensures AllFollow(q, p, EarlyRules(q, p, report))
  {
    hide FallbackContradiction, BaselineMapping, SizeFeasibility, AddressBounds, Displacement;
    hide ReservationAlignment, PageSize, Follows;
    hide AddressAlignment, SizeGranularity, RangeAvailability, ExactCapability, NonDestructive, HintedRelocation;
    ClaimRulesFollow(q, p, report);
    SizeRuleFollows(q, p);
    AlignmentRulesFollow(q, p);
    AddressRuleFollows(q, p);
    MappingRulesFollow(q, p, report);
    MovingRulesFollow(q, p);
    BoundsRuleFollows(q, p, report);
    PlaceRuleFollows(q, p, report);
  }

  lemma LateFollow(q: Requirement, p: Profile, report: bool)
    ensures AllFollow(q, p, LateRules(q, p, report))
  {
    hide WriteExecute, ExecutableMapping, JitEntitlement, ReserveCommit, Truncation, BeyondEof, Follows;
    WriteExecuteFollows(q, p);
    PolicyRulesFollow(q, p);
    CommitRulesFollow(q, p, report);
    TruncationRuleFollows(q, p);
  }

  lemma AllOutcomesFollow(q: Requirement, p: Profile, report: bool)
    ensures AllFollow(q, p, Outcomes(q, p, report))
  {
    hide EarlyRules, LateRules, AfterEarly, AfterLate, Said, ProvedImpossible, Inherited;
    EarlyFollow(q, p, report);
    LateFollow(q, p, report);
    var identity, retry := IdentityOutcome(q, AfterEarly(q, p, report)), RetryOutcome(q, AfterLate(q, p, report));
    assert Follows(q, p, identity) && Follows(q, p, retry);
    hide IdentityOutcome, RetryOutcome, Follows;
    forall i | 0 <= i < |Outcomes(q, p, report)| ensures Follows(q, p, Outcomes(q, p, report)[i]) {
      assert Outcomes(q, p, report)[i] in EarlyRules(q, p, report) + [identity] + LateRules(q, p, report) + [retry];
    }
  }

  /**
   * A finding names the program's claim and the evidence of what it rests on, and claims the strongest
   * confidence that those allow, up to what its rule asks for.
   */
  lemma FindingsNameTheirGrounds(q: Requirement, p: Profile, report: bool, f: Finding)
    requires q.operation != OtherOperation && f in Assess(q, p, report).findings
    ensures NamesItsGrounds(q, p, f.id, f.chain)
    ensures f.confidence == ClampConfidence(Asked(f.id, f.impact), WeakestOf(f.chain))
  {
    hide Assess, Outcomes, NamesItsGrounds, AbsorbAll, ClampConfidence, WeakestOf, Asked;
    var all := Outcomes(q, p, report);
    AssessIsFold(q, p, report);
    FindingsAreDrafted(all, f);
    var i :| 0 <= i < |all| && all[i].Says? && f == Clamped(all[i].draft);
    AllOutcomesFollow(q, p, report);
  }

  // -------------------------------------------------------------------------
  // Forgetting what is less well known
  // -------------------------------------------------------------------------

  function Kept<T>(f: Fact<T>, c: EvidenceClass): Fact<T> {
    if f.Known? && f.evidence.Rank() <= c.Rank() then f else NotKnown
  }

  function KeptRanges(ranges: seq<ClassifiedRange>, c: EvidenceClass): seq<ClassifiedRange> {
    if ranges == [] then []
    else (if ranges[0].evidence.Rank() <= c.Rank() then [ranges[0]] else []) + KeptRanges(ranges[1..], c)
  }

  /** The host as it is known when every fact weaker than `c` is forgotten. */
  function Without(p: Profile, c: EvidenceClass): Profile {
    Profile(
      RangeStore.RangeFacts(Kept(p.ranges.minMapAddress, c), Kept(p.ranges.maxUserAddress, c),
                            KeptRanges(p.ranges.unavailable, c), KeptRanges(p.ranges.available, c)),
      Kept(p.anonymousMapping, c), Kept(p.maxReservation, c), Kept(p.maxReservationHinted, c),
      Kept(p.granularity, c), Kept(p.pageSize, c), Kept(p.exactMapping, c), Kept(p.fixedNoReplace, c),
      Kept(p.hintedMayRelocate, c), Kept(p.writeExecute, c), Kept(p.writeThenExecute, c),
      Kept(p.anonymousExecutable, c), Kept(p.jitEntitlement, c), Kept(p.commitModel, c), Kept(p.beyondEof, c),
      p.processPointerBits)
  }

  predicate HasClass<T>(f: Fact<T>) {
    f.Known? ==> f.evidence != UnknownEvidence
  }

  /** A value of unknown evidence is not accepted as a fact. */
  predicate IsSourced(p: Profile) {
    && HasClass(p.ranges.minMapAddress) && HasClass(p.ranges.maxUserAddress) && HasClass(p.anonymousMapping)
    && HasClass(p.maxReservation) && HasClass(p.maxReservationHinted) && HasClass(p.granularity)
    && HasClass(p.pageSize) && HasClass(p.exactMapping) && HasClass(p.fixedNoReplace)
    && HasClass(p.hintedMayRelocate) && HasClass(p.writeExecute) && HasClass(p.writeThenExecute)
    && HasClass(p.anonymousExecutable) && HasClass(p.jitEntitlement) && HasClass(p.commitModel)
    && HasClass(p.beyondEof)
  }

  lemma {:induction false} KeptRangesAre(ranges: seq<ClassifiedRange>, c: EvidenceClass, x: ClassifiedRange)
    ensures x in KeptRanges(ranges, c) <==> x in ranges && x.evidence.Rank() <= c.Rank()
  {
    if ranges != [] {
      KeptRangesAre(ranges[1..], c, x);
      assert x in ranges <==> x == ranges[0] || x in ranges[1..];
    }
  }

  lemma {:induction false} AllRangesKept(ranges: seq<ClassifiedRange>)
    ensures KeptRanges(ranges, UnknownEvidence) == ranges
  {
    if ranges != [] {
      AllRangesKept(ranges[1..]);
    }
  }

  lemma AllIsKept<T>(f: Fact<T>)
    ensures Kept(f, UnknownEvidence) == f
  {
  }

  lemma NothingIsForgotten(p: Profile)
    ensures Without(p, UnknownEvidence) == p
  {
    hide KeptRanges, Kept;
    AllRangesKept(p.ranges.unavailable);
    AllRangesKept(p.ranges.available);
    AllIsKept(p.ranges.minMapAddress);
    AllIsKept(p.ranges.maxUserAddress);
    AllIsKept(p.anonymousMapping);
    AllIsKept(p.maxReservation);
    AllIsKept(p.maxReservationHinted);
    AllIsKept(p.granularity);
    AllIsKept(p.pageSize);
    AllIsKept(p.exactMapping);
    AllIsKept(p.fixedNoReplace);
    AllIsKept(p.hintedMayRelocate);
    AllIsKept(p.writeExecute);
    AllIsKept(p.writeThenExecute);
    AllIsKept(p.anonymousExecutable);
    AllIsKept(p.jitEntitlement);
    AllIsKept(p.commitModel);
    AllIsKept(p.beyondEof);
  }

  lemma ConflictsKept(ranges: seq<ClassifiedRange>, c: EvidenceClass, r: AddressRange)
    ensures RangeStore.Conflicts(KeptRanges(ranges, c), r) ==> RangeStore.Conflicts(ranges, r)
    ensures (exists u :: u in ranges && u.evidence.Rank() <= c.Rank() && u.range.Intersects(r)) ==>
              RangeStore.Conflicts(KeptRanges(ranges, c), r)
  {
    hide KeptRanges;
    var kept := KeptRanges(ranges, c);
    if RangeStore.Conflicts(kept, r) {
      var k :| 0 <= k < |kept| && kept[k].range.Intersects(r);
      KeptRangesAre(ranges, c, kept[k]);
    }
    if u :| u in ranges && u.evidence.Rank() <= c.Rank() && u.range.Intersects(r) {
      KeptRangesAre(ranges, c, u);
    }
  }

  // What is refused for reasons that are kept stays refused, for the same reason; nothing else comes to be.

  lemma PlaceKept(q: Requirement, p: Profile, c: EvidenceClass)
    requires HasRange(q) && PlaceLevel(q, p) == Unsupported && PlaceEvidence(q, p).Rank() <= c.Rank()
    ensures PlaceLevel(q, Without(p, c)) == Unsupported && ObstacleTo(q, Without(p, c)) == ObstacleTo(q, p)
  {
    hide KeptRanges, RangeStore.Conflicts, RangeStore.Established;
    var r := AddressRange(q.request.address.value, q.request.address.value + q.request.size);
    ConflictsKept(p.ranges.unavailable, c, r);
    hide RangeStore.Verdict;
    RangeStore.VerdictIsJustified(p.ranges, r);
  }

  lemma PlaceForgotten(q: Requirement, p: Profile, c: EvidenceClass)
    requires HasRange(q) && PlaceLevel(q, Without(p, c)) == Unsupported
    ensures PlaceLevel(q, p) == Unsupported
  {
    hide KeptRanges, RangeStore.Conflicts, RangeStore.Established;
    ConflictsKept(p.ranges.unavailable, c,
                  AddressRange(q.request.address.value, q.request.address.value + q.request.size));
  }

  /** Every class of the chain is at least as strong as `c`. */
  predicate Within(chain: seq<EvidenceClass>, c: EvidenceClass) {
    forall e :: e in chain ==> e.Rank() <= c.Rank()
  }

  lemma SpaceKept(q: Requirement, p: Profile, c: EvidenceClass)
    requires ExceedsSpace(q, p) && p.ranges.maxUserAddress.Evidence().Rank() <= c.Rank()
    ensures ExceedsSpace(q, Without(p, c)) <==> StandsWithoutFloor(q, p, c)
  {
    hide KeptRanges;
  }

  lemma GrantKept(q: Requirement, p: Profile, c: EvidenceClass)
    requires IsNotGranted(q, p) || IsBetween(q, p)
    requires GrantEvidence(q, p).Rank() <= c.Rank()
    ensures IsNotGranted(q, Without(p, c)) <==> IsNotGranted(q, p) && StandsOnGrant(p, c)
    ensures IsBetween(q, Without(p, c)) <==> IsBetween(q, p) && StandsOnGrant(p, c)
  {
    hide KeptRanges;
  }

  lemma SizeKept(q: Requirement, p: Profile, report: bool, id: FindingId, weight: Weight, chain: seq<EvidenceClass>,
                 c: EvidenceClass)
    requires SizeWarrants(q, p, report, id, weight) && id != RequiredFactUnknown
    requires NamesItsGrounds(q, p, id, chain) && Within(chain, c)
    ensures id == PageSizeMismatch || id == ReservationGrantabilityUnknown ==>
              SizeWarrants(q, Without(p, c), report, id, weight)
    ensures id == SizeExceedsAddressSpace ==>
              (SizeWarrants(q, Without(p, c), report, id, weight) <==> StandsWithoutFloor(q, p, c))
    ensures id == SizeExceedsGrantedReservation ==>
              (SizeWarrants(q, Without(p, c), report, id, weight) <==> StandsOnGrant(p, c))
  {
    hide KeptRanges, ExceedsSpace, IsNotGranted, IsBetween, IsUnprobed, StandsWithoutFloor, StandsOnGrant;
    hide GrantEvidence, HasUnknownPages;
    match id
    case ReservationGrantabilityUnknown =>
      assert UnknownEvidence in chain;
      NothingIsForgotten(p);
    case SizeExceedsAddressSpace =>
      assert p.ranges.maxUserAddress.Evidence() in chain;
      SpaceKept(q, p, c);
    case SizeExceedsGrantedReservation =>
      assert GrantEvidence(q, p) in chain;
      GrantKept(q, p, c);
    case PageSizeMismatch =>
      assert p.pageSize.Evidence() in chain;
    case _ =>
  }

  /** The size does not fit whatever the lowest address, or that is known as well as the rest. */
  predicate StandsWithoutFloor(q: Requirement, p: Profile, c: EvidenceClass) {
    var top, bottom := p.ranges.maxUserAddress, p.ranges.minMapAddress;
    (bottom.Known? ==> bottom.evidence.Rank() <= c.Rank()) || (top.Known? && q.request.size > top.value)
  }

  /** The end of the address space, and the plain reservation, are known as well as the rest. */
  predicate StandsOnGrant(p: Profile, c: EvidenceClass) {
    p.ranges.maxUserAddress.Evidence().Rank() <= c.Rank() && p.maxReservation.Evidence().Rank() <= c.Rank()
  }

  lemma AlignmentKept(q: Requirement, p: Profile, id: FindingId, weight: Weight, chain: seq<EvidenceClass>,
                      c: EvidenceClass)
    requires AlignmentWarrants(q, p, id, weight) && NamesItsGrounds(q, p, id, chain) && Within(chain, c)
    ensures AlignmentWarrants(q, Without(p, c), id, weight)
  {
    hide KeptRanges, IsPowerOfTwo;
  }

  lemma PlacesKept(q: Requirement, p: Profile, report: bool, id: FindingId, weight: Weight, chain: seq<EvidenceClass>,
                   c: EvidenceClass)
    requires PlaceWarrants(q, p, report, id, weight) && id != RequiredFactUnknown
    requires id != ExactAddressUnavailable
    requires NamesItsGrounds(q, p, id, chain) && Within(chain, c)
    ensures PlaceWarrants(q, Without(p, c), report, id, weight)
  {
    ObstaclesArePlaces(q, p);
    hide KeptRanges, PlaceLevel, Without;
    PlaceObstacleKept(q, p, c);
    assert PlaceEvidence(q, p) in chain;
  }

  /** `PlaceKept` for the conditions on the place, a range or not. */
  lemma PlaceObstacleKept(q: Requirement, p: Profile, c: EvidenceClass)
    requires PlaceEvidence(q, p).Rank() <= c.Rank()
    ensures IsUnplaceable(q, p) ==>
              IsUnplaceable(q, Without(p, c)) && ObstacleTo(q, Without(p, c)) == ObstacleTo(q, p)
    ensures HintIsVain(q, p) ==> HintIsVain(q, Without(p, c))
  {
    hide KeptRanges, PlaceLevel;
    if HasRange(q) && PlaceLevel(q, p) == Unsupported {
      hide Without, ObstacleTo, PlaceEvidence;
      PlaceKept(q, p, c);
    }
  }

  lemma ExactPlaceKept(q: Requirement, p: Profile, report: bool, chain: seq<EvidenceClass>, c: EvidenceClass)
    requires NamesPlace(q, p, chain) && Within(chain, c)
    ensures PlaceWarrants(q, Without(p, c), report, ExactAddressUnavailable, Impossibility)
            || MappingWarrants(q, Without(p, c), report, ExactAddressUnavailable, Impossibility)
  {
    if LacksExactMapping(q, p) && Names(q, chain, {p.exactMapping.Evidence()}) {
      assert p.exactMapping.Evidence() in chain;
      assert LacksExactMapping(q, Without(p, c));
    } else {
      assert PlaceEvidence(q, p) in chain;
      hide Without, KeptRanges, PlaceEvidence, ObstacleTo;
      PlaceObstacleKept(q, p, c);
    }
  }

  lemma MappingKept(q: Requirement, p: Profile, report: bool, id: FindingId, weight: Weight, chain: seq<EvidenceClass>,
                    c: EvidenceClass)
    requires MappingWarrants(q, p, report, id, weight) && id != RequiredFactUnknown && id != ExactAddressUnavailable
    requires NamesItsGrounds(q, p, id, chain) && Within(chain, c)
    ensures MappingWarrants(q, Without(p, c), report, id, weight)
  {
    hide KeptRanges;
  }

  /** Some range known that well was seen to meet the bounds. */
  ghost predicate StandsOnRange(q: Requirement, p: Profile, c: EvidenceClass) {
    exists k, a: u64 ::
      && 0 <= k < |p.ranges.available| && p.ranges.available[k].evidence.Rank() <= c.Rank()
      && p.ranges.available[k].range.HasAddress(a) && InBounds(q, a)
  }

  lemma SeenKept(q: Requirement, p: Profile, c: EvidenceClass)
    ensures IsSeenInBounds(q, Without(p, c)) <==> StandsOnRange(q, p, c)
  {
    hide KeptRanges, InBounds;
    var kept := KeptRanges(p.ranges.available, c);
    if IsSeenInBounds(q, Without(p, c)) {
      var k, a: u64 :| 0 <= k < |kept| && kept[k].range.HasAddress(a) && InBounds(q, a);
      KeptRangesAre(p.ranges.available, c, kept[k]);
      var j :| 0 <= j < |p.ranges.available| && p.ranges.available[j] == kept[k];
    }
    if StandsOnRange(q, p, c) {
      var k, a: u64 :| 0 <= k < |p.ranges.available| && p.ranges.available[k].evidence.Rank() <= c.Rank()
                       && p.ranges.available[k].range.HasAddress(a) && InBounds(q, a);
      KeptRangesAre(p.ranges.available, c, p.ranges.available[k]);
    }
  }

  lemma FirmBoundsKept(q: Requirement, p: Profile, c: EvidenceClass)
    requires IsSourced(p) && HeuristicRisk.Rank() <= c.Rank()
    ensures IsOutOfBounds(q, Without(p, c)) == IsOutOfBounds(q, p)
    ensures Without(p, c).ranges.maxUserAddress == p.ranges.maxUserAddress
  {
    hide KeptRanges;
  }

  lemma BoundsKept(q: Requirement, p: Profile, report: bool, id: FindingId, weight: Weight, chain: seq<EvidenceClass>,
                   c: EvidenceClass)
    requires BoundsWarrant(q, p, report, id, weight) && id != RequiredFactUnknown && IsSourced(p)
    requires NamesItsGrounds(q, p, id, chain) && Within(chain, c)
    ensures id != AddressBoundIsTight ==> BoundsWarrant(q, Without(p, c), report, id, weight)
    ensures id == AddressBoundIsTight ==>
              (BoundsWarrant(q, Without(p, c), report, id, weight) <==> StandsOnRange(q, p, c))
  {
    hide KeptRanges, IsSeenInBounds, StandsOnRange;
    if id == AddressBoundIsTight {
      assert HeuristicRisk in chain;
      FirmBoundsKept(q, p, c);
      hide Without, IsOutOfBounds;
      SeenKept(q, p, c);
    }
  }

  lemma PolicyKept(q: Requirement, p: Profile, id: FindingId, weight: Weight, chain: seq<EvidenceClass>,
                   c: EvidenceClass)
    requires PolicyWarrants(q, p, id, weight) && NamesItsGrounds(q, p, id, chain) && Within(chain, c)
    ensures PolicyWarrants(q, Without(p, c), id, weight)
  {
    hide KeptRanges;
  }

  lemma AccessKept(q: Requirement, p: Profile, report: bool, id: FindingId, weight: Weight, chain: seq<EvidenceClass>,
                   c: EvidenceClass)
    requires AccessWarrants(q, p, report, id, weight) && id != RequiredFactUnknown
    requires NamesItsGrounds(q, p, id, chain) && Within(chain, c)
    ensures id != PointerTruncation ==> AccessWarrants(q, Without(p, c), report, id, weight)
    ensures id == PointerTruncation ==>
              (AccessWarrants(q, Without(p, c), report, id, weight) <==>
               HasRange(q) || p.ranges.maxUserAddress.Evidence().Rank() <= c.Rank())
  {
    hide KeptRanges, Pow2;
  }

  // Forgetting makes nothing impossible to place that was not, while only ranges are forgotten.

  lemma FirmFactsKept(p: Profile, c: EvidenceClass)
    requires IsSourced(p) && HeuristicRisk.Rank() <= c.Rank()
    ensures Without(p, c) == p.(ranges := Without(p, c).ranges)
    ensures Without(p, c).ranges.minMapAddress == p.ranges.minMapAddress
    ensures Without(p, c).ranges.maxUserAddress == p.ranges.maxUserAddress
  {
    hide KeptRanges;
  }

  lemma FragilityKept(q: Requirement, p: Profile, chain: seq<EvidenceClass>, c: EvidenceClass)
    requires IsSourced(p) && Names(q, chain, {HeuristicRisk}) && Within(chain, c)
    ensures IsImpossibleAnywhere(q, Without(p, c)) == IsImpossibleAnywhere(q, p)
    ensures IsUnplaceable(q, Without(p, c)) ==> IsUnplaceable(q, p)
    ensures MayBeMoved(q, Without(p, c)) == MayBeMoved(q, p)
  {
    hide KeptRanges, PlaceLevel, IsPowerOfTwo, Without, IsSourced;
    assert HeuristicRisk in chain;
    FirmFactsKept(p, c);
    if HasRange(q) && PlaceLevel(q, Without(p, c)) == Unsupported {
      PlaceForgotten(q, p, c);
    }
  }

  /** What a finding needs beyond the facts that its evidence names. */
  ghost predicate Stands(q: Requirement, p: Profile, id: FindingId, c: EvidenceClass) {
    match id
    case SizeExceedsAddressSpace => StandsWithoutFloor(q, p, c)
    case SizeExceedsGrantedReservation => StandsOnGrant(p, c)
    case AddressBoundIsTight => StandsOnRange(q, p, c)
    case PointerTruncation => HasRange(q) || p.ranges.maxUserAddress.Evidence().Rank() <= c.Rank()
    case PermanentErrorRetried => IsImpossible(q, Without(p, c))
    case _ => true
  }

  ghost predicate IsWarranted(q: Requirement, p: Profile, report: bool, id: FindingId, weight: Weight) {
    || SizeWarrants(q, p, report, id, weight) || AlignmentWarrants(q, p, id, weight)
    || PlaceWarrants(q, p, report, id, weight) || MappingWarrants(q, p, report, id, weight)
    || BoundsWarrant(q, p, report, id, weight)
    || PolicyWarrants(q, p, id, weight) || AccessWarrants(q, p, report, id, weight)
    || LookingBackWarrants(q, p, id, weight)
  }

  /** The findings that depend on more than they name. */
  predicate IsOpen(id: FindingId) {
    || id == SizeExceedsAddressSpace || id == SizeExceedsGrantedReservation || id == AddressBoundIsTight
    || id == PointerTruncation || id == PermanentErrorRetried
  }

  /** Each of those belongs to one group. */
  lemma OneGroup(q: Requirement, p: Profile, report: bool, id: FindingId, weight: Weight)
    ensures id == SizeExceedsAddressSpace || id == SizeExceedsGrantedReservation ==>
              (IsWarranted(q, p, report, id, weight) <==> SizeWarrants(q, p, report, id, weight))
    ensures id == AddressBoundIsTight ==>
              (IsWarranted(q, p, report, id, weight) <==> BoundsWarrant(q, p, report, id, weight))
    ensures id == PointerTruncation ==>
              (IsWarranted(q, p, report, id, weight) <==> AccessWarrants(q, p, report, id, weight))
    ensures id == PermanentErrorRetried || id == IdentityWithoutTranslation ==>
              (IsWarranted(q, p, report, id, weight) <==> LookingBackWarrants(q, p, id, weight))
  {
    ObstaclesArePlaces(q, p);
    hide ExceedsSpace, IsUnprobed, IsNotGranted, IsBetween, HasOtherPages, HasUnknownPages, IsRounded, ObstacleTo;
    hide NeedsMoreAlignment, IsMisaligned, IsOffGranularity, HintIsVain, IsUnseenPlace, IsUnplaceable, LacksAnonymous;
    hide HasUnknownAnonymous, LacksExactMapping, MayOverwrite, MayBeMoved, ContradictsItself, IsOutOfBounds;
    hide HasUnseenBounds, HasTightBounds, IsKeptFromBoth, IsKeptFromSwitching, IsKeptFromExecuting, NeedsEntitlement;
    hide CommitsLazily, Outreaches, NoticesWrongAddresses, PassesEof, ReadsPastEof, IsFragile, IsImpossible;
    hide IsImpossibleToPlace;
  }

  /** The warrant of a finding about the others. */
  lemma LookingBackKept(q: Requirement, p: Profile, id: FindingId, weight: Weight, chain: seq<EvidenceClass>,
                        c: EvidenceClass)
    requires LookingBackWarrants(q, p, id, weight) && IsSourced(p)
    requires NamesItsGrounds(q, p, id, chain) && Within(chain, c)
    ensures LookingBackWarrants(q, Without(p, c), id, weight) <==> Stands(q, p, id, c)
  {
    hide Without, IsImpossibleAnywhere, IsUnplaceable, MayBeMoved, IsFragile, IsImpossible;
    if id == IdentityWithoutTranslation {
      FragilityKept(q, p, chain, c);
    }
  }

  lemma OpenWarrantKept(q: Requirement, p: Profile, report: bool, id: FindingId, weight: Weight,
                        chain: seq<EvidenceClass>, c: EvidenceClass)
    requires IsOpen(id) && IsSourced(p) && IsWarranted(q, p, report, id, weight)
    requires NamesItsGrounds(q, p, id, chain) && Within(chain, c)
    ensures IsWarranted(q, Without(p, c), report, id, weight) <==> Stands(q, p, id, c)
  {
    hide Without, SizeWarrants, AlignmentWarrants, PlaceWarrants, MappingWarrants, BoundsWarrant, PolicyWarrants;
    hide AccessWarrants, LookingBackWarrants, NamesItsGrounds, Within, IsImpossible, StandsOnRange, StandsOnGrant;
    hide StandsWithoutFloor, IsSourced, IsWarranted;
    OneGroup(q, p, report, id, weight);
    OneGroup(q, Without(p, c), report, id, weight);
    match id
    case AddressBoundIsTight => BoundsKept(q, p, report, id, weight, chain, c);
    case PointerTruncation => AccessKept(q, p, report, id, weight, chain, c);
    case PermanentErrorRetried => LookingBackKept(q, p, id, weight, chain, c);
    case _ => SizeKept(q, p, report, id, weight, chain, c);
  }

  lemma PlainWarrantKept(q: Requirement, p: Profile, report: bool, id: FindingId, weight: Weight,
                         chain: seq<EvidenceClass>, c: EvidenceClass)
    requires id != RequiredFactUnknown && id != ExactAddressUnavailable && !IsOpen(id) && IsSourced(p)
    requires IsWarranted(q, p, report, id, weight)
    requires NamesItsGrounds(q, p, id, chain) && Within(chain, c)
    ensures IsWarranted(q, Without(p, c), report, id, weight)
  {
    PlainNames(q, p, report, id, weight);
    assert id == IdentityWithoutTranslation ==> Stands(q, p, id, c);
    hide *;
    Groups(q, p, report, id, weight);
    Groups(q, Without(p, c), report, id, weight);
    if SizeWarrants(q, p, report, id, weight) {
      SizeKept(q, p, report, id, weight, chain, c);
    } else if AlignmentWarrants(q, p, id, weight) {
      AlignmentKept(q, p, id, weight, chain, c);
    } else if PlaceWarrants(q, p, report, id, weight) {
      PlacesKept(q, p, report, id, weight, chain, c);
    } else if MappingWarrants(q, p, report, id, weight) {
      MappingKept(q, p, report, id, weight, chain, c);
    } else if BoundsWarrant(q, p, report, id, weight) {
      BoundsKept(q, p, report, id, weight, chain, c);
    } else if PolicyWarrants(q, p, id, weight) {
      PolicyKept(q, p, id, weight, chain, c);
    } else if AccessWarrants(q, p, report, id, weight) {
      AccessKept(q, p, report, id, weight, chain, c);
    } else {
      LookingBackKept(q, p, id, weight, chain, c);
    }
  }

  lemma Groups(q: Requirement, p: Profile, report: bool, id: FindingId, weight: Weight)
    ensures IsWarranted(q, p, report, id, weight) <==>
            || SizeWarrants(q, p, report, id, weight) || AlignmentWarrants(q, p, id, weight)
            || PlaceWarrants(q, p, report, id, weight) || MappingWarrants(q, p, report, id, weight)
            || BoundsWarrant(q, p, report, id, weight)
            || PolicyWarrants(q, p, id, weight) || AccessWarrants(q, p, report, id, weight)
            || LookingBackWarrants(q, p, id, weight)
  {
  }

  lemma PlainNames(q: Requirement, p: Profile, report: bool, id: FindingId, weight: Weight)
    requires id != RequiredFactUnknown && !IsOpen(id)
    ensures SizeWarrants(q, p, report, id, weight) ==> id == PageSizeMismatch || id == ReservationGrantabilityUnknown
    ensures LookingBackWarrants(q, p, id, weight) ==> id == IdentityWithoutTranslation
  {
  }

  lemma WarrantKept(q: Requirement, p: Profile, report: bool, id: FindingId, weight: Weight, chain: seq<EvidenceClass>,
                    c: EvidenceClass)
    requires IsWarranted(q, p, report, id, weight) && IsSourced(p)
    requires NamesItsGrounds(q, p, id, chain) && Within(chain, c)
    ensures IsWarranted(q, Without(p, c), report, id, weight) <==> Stands(q, p, id, c)
  {
    hide SizeWarrants, AlignmentWarrants, BoundsWarrant, PolicyWarrants, AccessWarrants;
    hide Without, IsSourced, NamesPlace, NamesPolicy, NamesBound, KeptRanges;
    if id == RequiredFactUnknown {
      assert UnknownEvidence in chain;
      NothingIsForgotten(p);
    } else if id == ExactAddressUnavailable {
      hide Within, MappingWarrants, PlaceWarrants;
      ExactIsImpossible(q, p, report, id, weight);
      ExactPlaceKept(q, p, report, chain, c);
    } else if IsOpen(id) {
      hide *;
      OpenWarrantKept(q, p, report, id, weight, chain, c);
    } else {
      assert Stands(q, p, id, c);
      hide *;
      PlainWarrantKept(q, p, report, id, weight, chain, c);
    }
  }

  lemma ExactIsImpossible(q: Requirement, p: Profile, report: bool, id: FindingId, weight: Weight)
    requires id == ExactAddressUnavailable && IsWarranted(q, p, report, id, weight)
    ensures weight == Impossibility
  {
  }

  function WeightOf(f: Finding): Weight {
    if f.structural then Impossibility
    else
      match f.impact
      case Supported => Note
      case ConditionallySupported => Condition
      case Unknown => Doubt
      case Unsupported => Refusal
  }

  /**
   * A finding can be no stronger than the weakest fact it depends on: with every fact weaker than its evidence
   * forgotten, it would still be reported. This holds of all findings but those that `Stands` names, and of
   * those exactly when it says so.
   */
  lemma WeakerFactsDoNotMatter(q: Requirement, p: Profile, report: bool, f: Finding)
    requires q.operation != OtherOperation && f in Assess(q, p, report).findings && IsSourced(p)
    ensures var c := WeakestOf(f.chain);
      Reports(Assess(q, Without(p, c), report), f.id, WeightOf(f)) <==> Stands(q, p, f.id, c)
  {
    hide Assess, WeakestOf, NamesItsGrounds, Without, Stands, ConfidenceCeiling, ClampConfidence, IsSourced;
    hide SizeWarrants, AlignmentWarrants, PlaceWarrants, MappingWarrants, BoundsWarrant, PolicyWarrants;
    hide AccessWarrants, LookingBackWarrants;
    var c, weight := WeakestOf(f.chain), WeightOf(f);
    FindingsNeverOverclaim(q, p, report, f);
    FindingsNameTheirGrounds(q, p, report, f);
    WeakestIsExtreme(f.chain);
    assert Reports(Assess(q, p, report), f.id, weight);
    FindingsExactly(q, p, report, f.id, weight);
    FindingsExactly(q, Without(p, c), report, f.id, weight);
    WarrantKept(q, p, report, f.id, weight, f.chain, c);
  }

  // -------------------------------------------------------------------------
  // Findings that claim more than their facts allow
  // -------------------------------------------------------------------------

  /** All of the low two gigabytes, anywhere. */
  const TWO_GIGABYTES := Requirement(
    Map,
    Request(None, 0x8000_0000, false, false, None, None, None, None, false, None, Equal, true,
            true, false, false, false, false, None, 0, false, WithinFinalPartialPage, false),
    false, false, None, false, false, SpecifiedGuarantee)

  /** A host measured to end at two gigabytes, whose lowest address is a guess. */
  const GUESSED_FLOOR := Profile(
    RangeStore.RangeFacts(Known(0x1_0000, HeuristicRisk), Known(0x8000_0000, MeasuredCapability), [], []),
    Known(true, MeasuredCapability),
    NotKnown, NotKnown, NotKnown, NotKnown, NotKnown, NotKnown, NotKnown, NotKnown, NotKnown, NotKnown, NotKnown,
    NotKnown, NotKnown, 0)

  lemma WithoutTheGuess()
    ensures Without(GUESSED_FLOOR, MeasuredCapability) == GUESSED_FLOOR.(ranges :=
              RangeStore.RangeFacts(NotKnown, Known(0x8000_0000, MeasuredCapability), [], []))
    ensures Assess(TWO_GIGABYTES, Without(GUESSED_FLOOR, MeasuredCapability), true).overall == Supported
  {
    hide Assess;
    SupportedExactly(TWO_GIGABYTES, Without(GUESSED_FLOOR, MeasuredCapability), true);
  }

  /** The size is called impossible, and PROVEN so, on the strength of a guess: without it nothing is said. */
  lemma GuessIsCalledProven()
    ensures exists f :: f in Assess(TWO_GIGABYTES, GUESSED_FLOOR, true).findings
                        && f.id == SizeExceedsAddressSpace && f.structural && f.confidence == Proven
    ensures Without(GUESSED_FLOOR, MeasuredCapability) == GUESSED_FLOOR.(ranges :=
              RangeStore.RangeFacts(NotKnown, Known(0x8000_0000, MeasuredCapability), [], []))
    ensures Assess(TWO_GIGABYTES, Without(GUESSED_FLOOR, MeasuredCapability), true).overall == Supported
  {
    hide Assess, WeakestOf, Without;
    WithoutTheGuess();
    var q, p := TWO_GIGABYTES, GUESSED_FLOOR;
    FindingsExactly(q, p, true, SizeExceedsAddressSpace, Impossibility);
    var f :| f in Assess(q, p, true).findings && f.id == SizeExceedsAddressSpace
             && f.impact == Impossibility.Level() && f.structural == Impossibility.Impossibility?;
    FindingsNameTheirGrounds(q, p, true, f);
    WeakestIsExtreme(f.chain);
  }
}
