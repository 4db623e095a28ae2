/** What a verdict may be trusted for. */
module VerdictClaims {
  import opened Multiples
  import opened Wrappers
  import opened Evidence
  import opened Ranges
  import RangeStore
  import opened VerdictRules
  import opened VerdictEngine

  // -------------------------------------------------------------------------
  // Findings
  // -------------------------------------------------------------------------

  /** A rule claims impossibility, or names relocation, only together with UNSUPPORTED. */
  predicate Sensible(o: Outcome) {
    o.Says? && (o.draft.structural || o.draft.id == HintedMappingMayRelocate) ==> o.draft.impact == Unsupported
  }

  predicate AllSensible(outcomes: seq<Outcome>) {
    forall i :: 0 <= i < |outcomes| ==> Sensible(outcomes[i])
  }

  lemma SizeRulesAreSensible(q: Requirement, p: Profile, report: bool)
    ensures Sensible(FallbackContradiction(q)) && Sensible(BaselineMapping(q, p, report))
            && Sensible(SizeFeasibility(q, p))
    ensures Sensible(Displacement(q)) && Sensible(ReservationAlignment(q, p)) && Sensible(PageSize(q, p, report))
    ensures Sensible(SizeGranularity(q, p))
  {
    hide IsAligned, IsPowerOfTwo, RoundUp, Granted, PageRelationHolds;
  }

  lemma PlacementRulesAreSensible(q: Requirement, p: Profile, report: bool)
    ensures Sensible(AddressBounds(q, p, report)) && Sensible(AddressAlignment(q, p))
            && Sensible(RangeAvailability(q, p, report))
    ensures Sensible(ExactCapability(q, p)) && Sensible(NonDestructive(q, p)) && Sensible(HintedRelocation(q, p))
  {
    hide RangeStore.Verdict, RangeStore.Conflicts, IsAligned, IsPowerOfTwo, Obstacle;
  }

  lemma EarlyRulesAreSensible(q: Requirement, p: Profile, report: bool)
    ensures AllSensible(EarlyRules(q, p, report))
  {
    hide Sensible, FallbackContradiction, BaselineMapping, SizeFeasibility, AddressBounds, Displacement;
    hide ReservationAlignment, PageSize;
    hide AddressAlignment, SizeGranularity, RangeAvailability, ExactCapability, NonDestructive, HintedRelocation;
    SizeRulesAreSensible(q, p, report);
    PlacementRulesAreSensible(q, p, report);
  }

  lemma LateRulesAreSensible(q: Requirement, p: Profile, report: bool)
    ensures AllSensible(LateRules(q, p, report))
  {
    hide PointerWidth, Highest, MappingEnd;
  }

  lemma OutcomesAreSensible(q: Requirement, p: Profile, report: bool)
    ensures AllSensible(Outcomes(q, p, report))
  {
    hide EarlyRules, LateRules, AfterEarly, AfterLate;
    EarlyRulesAreSensible(q, p, report);
    LateRulesAreSensible(q, p, report);
    assert Sensible(IdentityOutcome(q, AfterEarly(q, p, report)));
    assert Sensible(RetryOutcome(q, AfterLate(q, p, report)));
  }

  /** Every finding is the clamped form of what some rule drafted. */
  lemma {:induction false} FindingsAreDrafted(outcomes: seq<Outcome>, f: Finding)
    requires f in AbsorbAll(NO_OBJECTION, outcomes).findings
    ensures exists i :: 0 <= i < |outcomes| && outcomes[i].Says? && f == Clamped(outcomes[i].draft)
  {
    hide Clamped;
    if outcomes != [] {
      var n := |outcomes| - 1;
      if f in AbsorbAll(NO_OBJECTION, outcomes[..n]).findings {
        FindingsAreDrafted(outcomes[..n], f);
        var i :| 0 <= i < n && outcomes[..n][i].Says? && f == Clamped(outcomes[..n][i].draft);
        assert outcomes[i] == outcomes[..n][i];
      }
    }
  }

  /**
   * No finding is stated more confidently than the weakest class in its
   * evidence allows, and a finding that claims impossibility makes the
   * verdict UNSUPPORTED.
   */
  lemma FindingsNeverOverclaim(q: Requirement, p: Profile, report: bool, f: Finding)
    requires f in Assess(q, p, report).findings
    ensures forall k :: 0 <= k < |f.chain| ==> ConfidenceCeiling(f.chain[k]).Rank() <= f.confidence.Rank()
    ensures f.impact.Rank() <= Assess(q, p, report).overall.Rank()
    ensures f.structural ==> f.impact == Unsupported && Assess(q, p, report).overall == Unsupported
  {
    hide Outcomes, ConfidenceCeiling, ClampConfidence, WeakestOf, AbsorbAll, AfterLate, RetryOutcome;
    var all := Outcomes(q, p, report);
    AssessIsFold(q, p, report);
    FindingsAreDrafted(all, f);
    var i :| 0 <= i < |all| && all[i].Says? && f == Clamped(all[i].draft);
    ClampNeverOverclaims(all[i].draft.desired, f.chain);
    OutcomesAreSensible(q, p, report);
    FoldIsJoin(all);
    assert Sensible(all[i]) && LevelOf(all[i]) == f.impact;
  }

  // -------------------------------------------------------------------------
  // What SUPPORTED rests on
  // -------------------------------------------------------------------------

  // The four predicates say, without mentioning rules, that nothing known
  // stands in the way and that everything the verdict needs is known.

  /** The requirement asks for nothing contradictory, and for nothing the engine cannot judge. */
  predicate Consistent(q: Requirement) {
    && (q.permitsRelocation && !q.request.validatesReturned ==> !q.request.exact && !q.identity)
    && (q.identity && !q.request.exact ==> q.translation)
    && q.request.maxDisplacement.None?
  }

  /** The size fits the address space and what the host was seen to grant; page size and granularity agree. */
  predicate SizeIsMet(q: Requirement, p: Profile, report: bool) {
    && (q.request.size > 0 && p.ranges.maxUserAddress.Known? && p.ranges.maxUserAddress.value > Floor(p) ==>
          && Floor(p) + q.request.size <= p.ranges.maxUserAddress.value
          && q.request.size <= if p.maxReservation.Known? then Granted(q, p).value else LARGEST_OBSERVED)
    && (q.request.pageSize.Some? ==> if p.pageSize.Known? then PageRelationHolds(q, p.pageSize.value) else !report)
    && (q.request.reliesOnUnmapped && p.granularity.Known? && p.granularity.value > 0 ==>
          IsAligned(q.request.size, p.granularity.value) || RoundUp(q.request.size, p.granularity.value).None?)
    && (q.request.address.None? && q.request.alignment.Some? && p.granularity.Known? ==>
          IsPowerOfTwo(q.request.alignment.value) ==> q.request.alignment.value <= p.granularity.value)
  }

  /** Mapping works here, and at the very range when the address matters. */
  predicate PlacementIsMet(q: Requirement, p: Profile) {
    && (!q.request.fileBacked ==> p.anonymousMapping.Known? && p.anonymousMapping.value)
    && (q.request.address.Some? && (q.request.exact || q.identity) ==>
          q.request.Range().Some? && RangeStore.Level(p.ranges, q.request.Range().value) == Supported)
    && (q.request.exact && p.exactMapping.Known? ==> p.exactMapping.value != Unsupported)
    && (q.request.exact && p.fixedNoReplace.Known? ==> p.fixedNoReplace.value)
    && (q.request.address.Some? && q.identity && !q.request.exact && p.hintedMayRelocate.Known? ==>
       !p.hintedMayRelocate.value)
    && (q.request.address.Some? && q.request.alignment.Some? && IsPowerOfTwo(q.request.alignment.value) ==>
          IsAligned(q.request.address.value, q.request.alignment.value))
    && (q.request.address.Some? && q.request.exact && p.granularity.Known? ==>
       IsAligned(q.request.address.value, p.granularity.value))
  }

  /**
   * The address lies within its bounds, some observed range meets them, and they are not a small
   * corner of the space.
   */
  predicate BoundsAreMet(q: Requirement, p: Profile) {
    var top, bottom := p.ranges.maxUserAddress, p.ranges.minMapAddress;
    q.request.addressMin.Some? || q.request.addressMax.Some? ==>
      && (q.request.address.Some? ==> LowerBound(q) <= q.request.address.value < UpperBound(q))
      && (q.request.addressMin.Some? && top.Known? ==> LowerBound(q) < top.value)
      && (q.request.addressMax.Some? && bottom.Known? ==> bottom.value < UpperBound(q))
      && RangeStore.Conflicts(p.ranges.available, AddressRange(LowerBound(q), UpperBound(q)))
      && (q.request.addressMax.Some? && top.Known? && top.value > 0 ==> UpperBound(q) > top.value / 4)
  }

  predicate ExecutesCode(q: Requirement) {
    q.request.execute || q.request.writeThenExecute
  }

  predicate WritesWhileExecuting(q: Requirement) {
    q.request.simultaneousWriteExecute || (q.request.write && q.request.execute)
  }

  /** No known policy forbids the code, the commit, the stored pointer or the read past the end of the file. */
  predicate UseIsMet(q: Requirement, p: Profile) {
    && (WritesWhileExecuting(q) && p.writeExecute.Known? ==> p.writeExecute.value)
    && (!WritesWhileExecuting(q) && q.request.writeThenExecute && p.writeThenExecute.Known? ==>
       p.writeThenExecute.value)
    && (ExecutesCode(q) && !q.request.fileBacked && p.anonymousExecutable.Known? ==> p.anonymousExecutable.value)
    && (ExecutesCode(q) && p.jitEntitlement.Known? ==> !p.jitEntitlement.value)
    && (q.request.reserveThenCommit && p.commitModel == Known(PosixLazy, p.commitModel.Evidence()) ==>
       q.request.commitIsChecked)
    && (PointerWidth(q, p).Known? && 0 < PointerWidth(q, p).value < 64 && Highest(q, p).Some? ==>
          Highest(q, p).value <= Pow2(PointerWidth(q, p).value))
    && (q.request.fileBacked && q.request.fileLength.Some? && MappingEnd(q) > q.request.fileLength.value ==>
          p.beyondEof.Known? && (q.request.accessesBeyondEof ==> ReadsPartialPage(q, p)))
  }

  lemma SizeLevels(q: Requirement, p: Profile, report: bool)
    ensures SizeIsMet(q, p, report) <==>
            && LevelOf(SizeFeasibility(q, p)) == LevelOf(PageSize(q, p, report)) == Supported
            && LevelOf(SizeGranularity(q, p)) == LevelOf(ReservationAlignment(q, p)) == Supported
  {
    hide IsAligned, IsPowerOfTwo, RoundUp, Granted, PageRelationHolds;
  }

  lemma PlacementLevels(q: Requirement, p: Profile, report: bool)
    ensures PlacementIsMet(q, p) <==>
            && LevelOf(BaselineMapping(q, p, report)) == LevelOf(RangeAvailability(q, p, report)) == Supported
            && LevelOf(ExactCapability(q, p)) == LevelOf(NonDestructive(q, p)) == Supported
            && LevelOf(HintedRelocation(q, p)) == LevelOf(AddressAlignment(q, p)) == Supported
  {
    hide IsAligned, IsPowerOfTwo, RangeStore.Verdict, RangeStore.Level, Obstacle;
    if q.request.Range().Some? {
      RangeStore.VerdictIsJustified(p.ranges, q.request.Range().value);
    }
  }

  lemma BoundLevels(q: Requirement, p: Profile, report: bool)
    ensures BoundsAreMet(q, p) <==> LevelOf(AddressBounds(q, p, report)) == Supported
  {
    hide RangeStore.Conflicts;
  }

  lemma UseLevels(q: Requirement, p: Profile, report: bool)
    ensures UseIsMet(q, p) <==>
            && LevelOf(WriteExecute(q, p)) == LevelOf(ExecutableMapping(q, p)) == Supported
            && LevelOf(JitEntitlement(q, p)) == Supported
            && LevelOf(ReserveCommit(q, p)) == LevelOf(Truncation(q, p)) == Supported
            && LevelOf(BeyondEof(q, p, report)) == Supported
  {
    hide PointerWidth, Highest, MappingEnd, ReadsPartialPage, Pow2;
  }

  /** When no rule proves impossibility or names relocation, the two rules about other findings say this. */
  lemma AggregateLevels(q: Requirement, p: Profile, report: bool)
    requires AllClear(EarlyRules(q, p, report)) && AllClear(LateRules(q, p, report))
    requires LevelOf(FallbackContradiction(q)) == LevelOf(Displacement(q)) == Supported
    ensures LevelOf(IdentityOutcome(q, AfterEarly(q, p, report))) ==
            LevelOf(RetryOutcome(q, AfterLate(q, p, report))) == Supported <==>
            Consistent(q)
  {
    hide EarlyRules, LateRules, AbsorbAll, Said, ProvedImpossible;
    var r := AfterEarly(q, p, report);
    ClearSaysNothing(NO_OBJECTION, EarlyRules(q, p, report));
    AppendRemembers(r, IdentityOutcome(q, r), HintedMappingMayRelocate);
    ClearSaysNothing(Absorb(r, IdentityOutcome(q, r)), LateRules(q, p, report));
    assert ProvedImpossible(NO_OBJECTION.findings) == Said(NO_OBJECTION.findings, HintedMappingMayRelocate) == false
        by { NothingSaid(); }
  }

  lemma NothingSaid()
    ensures !ProvedImpossible(NO_OBJECTION.findings) && !Said(NO_OBJECTION.findings, HintedMappingMayRelocate)
  {
  }

  /** Levels all SUPPORTED, as every rule that claims impossibility or relocation is not. */
  predicate AllClear(outcomes: seq<Outcome>) {
    forall i :: 0 <= i < |outcomes| ==>
      LevelOf(outcomes[i]) == Supported && Sensible(outcomes[i])
  }

  lemma ClearSaysNothing(r: Report, outcomes: seq<Outcome>)
    requires AllClear(outcomes)
    ensures ProvedImpossible(AbsorbAll(r, outcomes).findings) == ProvedImpossible(r.findings)
    ensures Said(AbsorbAll(r, outcomes).findings, HintedMappingMayRelocate) ==
            Said(r.findings, HintedMappingMayRelocate)
  {
    hide AbsorbAll, Said, ProvedImpossible;
    FoldRemembers(r, outcomes, HintedMappingMayRelocate);
    assert forall i :: 0 <= i < |outcomes| ==>
        !IsStructural(outcomes[i]) && !SaysId(outcomes[i], HintedMappingMayRelocate);
  }

  predicate AllSupported(outcomes: seq<Outcome>) {
    forall i :: 0 <= i < |outcomes| ==> LevelOf(outcomes[i]) == Supported
  }

  lemma SupportedIsAllSupported(outcomes: seq<Outcome>)
    ensures AbsorbAll(NO_OBJECTION, outcomes).overall == Supported <==> AllSupported(outcomes)
  {
    hide AbsorbAll, LevelOf;
    FoldIsJoin(outcomes);
  }

  lemma SplitSupported(a: seq<Outcome>, x: Outcome, b: seq<Outcome>, y: Outcome)
    ensures AllSupported(a + [x] + b + [y]) <==>
            AllSupported(a) && LevelOf(x) == Supported && AllSupported(b) && LevelOf(y) == Supported
  {
    hide LevelOf;
    var all := a + [x] + b + [y];
    assert all[|a|] == x && all[|all| - 1] == y;
    assert forall i :: 0 <= i < |a| ==> all[i] == a[i];
    assert forall i :: 0 <= i < |b| ==> all[|a| + 1 + i] == b[i];
    if AllSupported(a) && LevelOf(x) == Supported && AllSupported(b) && LevelOf(y) == Supported {
      forall i | 0 <= i < |all| ensures LevelOf(all[i]) == Supported {
        assert all[i] == if i < |a| then a[i] else if i == |a| then x else if i < |all| - 1 then b[i - |a| - 1] else y;
      }
    }
  }

  lemma EarlyLevels(q: Requirement, p: Profile, report: bool)
    ensures AllSupported(EarlyRules(q, p, report)) <==>
            && LevelOf(FallbackContradiction(q)) == LevelOf(Displacement(q)) == Supported
            && SizeIsMet(q, p, report) && PlacementIsMet(q, p) && BoundsAreMet(q, p)
  {
    SizeLevels(q, p, report);
    PlacementLevels(q, p, report);
    BoundLevels(q, p, report);
    hide LevelOf, SizeIsMet, PlacementIsMet, BoundsAreMet;
    hide FallbackContradiction, BaselineMapping, SizeFeasibility, AddressBounds, Displacement;
    hide ReservationAlignment, PageSize;
    hide AddressAlignment, SizeGranularity, RangeAvailability, ExactCapability, NonDestructive, HintedRelocation;
    var e := EarlyRules(q, p, report);
    assert AllSupported(e) <==>
           && LevelOf(e[0]) == LevelOf(e[1]) == LevelOf(e[2]) == LevelOf(e[3]) == LevelOf(e[4]) == LevelOf(e[5]) ==
              Supported
           && LevelOf(e[6]) == LevelOf(e[7]) == LevelOf(e[8]) == LevelOf(e[9]) == LevelOf(e[10]) == LevelOf(e[11]) ==
              Supported
           && LevelOf(e[12]) == Supported;
  }

  lemma LateLevels(q: Requirement, p: Profile, report: bool)
    ensures AllSupported(LateRules(q, p, report)) <==> UseIsMet(q, p)
  {
    UseLevels(q, p, report);
    hide LevelOf, UseIsMet, WriteExecute, ExecutableMapping, JitEntitlement, ReserveCommit, Truncation, BeyondEof;
    var e := LateRules(q, p, report);
    assert AllSupported(e) <==>
           && LevelOf(e[0]) == LevelOf(e[1]) == LevelOf(e[2]) == Supported
           && LevelOf(e[3]) == LevelOf(e[4]) == LevelOf(e[5]) == Supported;
  }

  lemma ConsistencyLevels(q: Requirement)
    ensures Consistent(q) ==> LevelOf(FallbackContradiction(q)) == LevelOf(Displacement(q)) == Supported
  {
  }

  /**
   * SUPPORTED, exactly: the requirement is consistent, its size, its placement
   * and its bounds are met by what is known of the host, and nothing known
   * forbids how the memory will be used.
   */
  lemma SupportedExactly(q: Requirement, p: Profile, report: bool)
    requires q.operation != OtherOperation
    ensures Assess(q, p, report).overall == Supported <==>
            Consistent(q) && SizeIsMet(q, p, report) && PlacementIsMet(q, p) && BoundsAreMet(q, p) && UseIsMet(q, p)
  {
    hide Assess, EarlyRules, LateRules, AbsorbAll, AfterEarly, AfterLate, IdentityOutcome, RetryOutcome;
    hide AllSupported, LevelOf;
    hide Consistent, SizeIsMet, PlacementIsMet, BoundsAreMet, UseIsMet, Sensible, FallbackContradiction, Displacement;
    var early, late := EarlyRules(q, p, report), LateRules(q, p, report);
    AssessIsFold(q, p, report);
    SupportedIsAllSupported(Outcomes(q, p, report));
    SplitSupported(early, IdentityOutcome(q, AfterEarly(q, p, report)), late, RetryOutcome(q, AfterLate(q, p, report)));
    EarlyLevels(q, p, report);
    LateLevels(q, p, report);
    ConsistencyLevels(q);
    if AllSupported(early) && AllSupported(late) {
      SupportedIsClear(q, p, report);
      AggregateLevels(q, p, report);
    }
  }

  lemma SupportedIsClear(q: Requirement, p: Profile, report: bool)
    ensures AllSupported(EarlyRules(q, p, report)) ==> AllClear(EarlyRules(q, p, report))
    ensures AllSupported(LateRules(q, p, report)) ==> AllClear(LateRules(q, p, report))
  {
    hide EarlyRules, LateRules, LevelOf, Sensible;
    EarlyRulesAreSensible(q, p, report);
    LateRulesAreSensible(q, p, report);
  }

  // -------------------------------------------------------------------------
  // Reporting unknowns
  // -------------------------------------------------------------------------

  /** What reporting unknowns adds: only the page-size rule ever drops an unknown fact in silence. */
  function Dropped(q: Requirement, p: Profile): SupportLevel {
    if q.request.pageSize.Some? && p.pageSize.NotKnown? then Unknown else Supported
  }

  predicate IsStructural(o: Outcome) {
    o.Says? && o.draft.structural
  }

  predicate SaysId(o: Outcome, id: FindingId) {
    o.Says? && o.draft.id == id
  }

  /** Two outcomes that differ at most in whether a missing fact is named. */
  predicate Alike(a: Outcome, b: Outcome) {
    && LevelOf(a) == LevelOf(b) && IsStructural(a) == IsStructural(b)
    && SaysId(a, HintedMappingMayRelocate) == SaysId(b, HintedMappingMayRelocate)
  }

  predicate AlikeBut(a: seq<Outcome>, b: seq<Outcome>, at: int, extra: SupportLevel) {
    && |a| == |b|
    && forall i :: 0 <= i < |a| ==>
         if i == at then LevelOf(a[i]) == Combine(LevelOf(b[i]), extra) && !SaysId(a[i], HintedMappingMayRelocate)
                      && !SaysId(b[i], HintedMappingMayRelocate) && IsStructural(a[i]) == IsStructural(b[i])
         else Alike(a[i], b[i])
  }

  lemma EarlyRulesAlike(q: Requirement, p: Profile)
    ensures AlikeBut(EarlyRules(q, p, true), EarlyRules(q, p, false), 6, Dropped(q, p))
  {
    hide SizeFeasibility, ReservationAlignment, AddressAlignment, SizeGranularity, ExactCapability;
    hide NonDestructive, HintedRelocation;
    hide FallbackContradiction, Displacement, RangeStore.Verdict, RangeStore.Conflicts, PageRelationHolds;
  }

  lemma LateRulesAlike(q: Requirement, p: Profile)
    ensures AlikeBut(LateRules(q, p, true), LateRules(q, p, false), -1, Supported)
  {
    hide WriteExecute, ExecutableMapping, JitEntitlement, ReserveCommit, Truncation, ReadsPartialPage, MappingEnd;
  }

  lemma {:induction false} FoldRemembers(r: Report, outcomes: seq<Outcome>, id: FindingId)
    ensures var s := AbsorbAll(r, outcomes);
      && (ProvedImpossible(s.findings) <==>
         ProvedImpossible(r.findings) || exists i :: 0 <= i < |outcomes| && IsStructural(outcomes[i]))
      && (Said(s.findings, id) <==> Said(r.findings, id) || exists i :: 0 <= i < |outcomes| && SaysId(outcomes[i], id))
    decreases |outcomes|
  {
    if outcomes != [] {
      var n := |outcomes| - 1;
      FoldRemembers(r, outcomes[..n], id);
      AppendRemembers(AbsorbAll(r, outcomes[..n]), outcomes[n], id);
      hide Absorb, Said, ProvedImpossible, IsStructural, SaysId;
      LastOrEarlier(outcomes, id);
    }
  }

  lemma LastOrEarlier(outcomes: seq<Outcome>, id: FindingId)
    requires outcomes != []
    ensures var n := |outcomes| - 1;
      && ((exists i :: 0 <= i < |outcomes| && IsStructural(outcomes[i])) <==>
          IsStructural(outcomes[n]) || exists i :: 0 <= i < n && IsStructural(outcomes[..n][i]))
      && ((exists i :: 0 <= i < |outcomes| && SaysId(outcomes[i], id)) <==>
          SaysId(outcomes[n], id) || exists i :: 0 <= i < n && SaysId(outcomes[..n][i], id))
  {
    hide IsStructural, SaysId;
    assert forall i :: 0 <= i < |outcomes| - 1 ==> outcomes[..|outcomes| - 1][i] == outcomes[i];
  }

  lemma AppendRemembers(r: Report, o: Outcome, id: FindingId)
    ensures ProvedImpossible(Absorb(r, o).findings) <==> ProvedImpossible(r.findings) || IsStructural(o)
    ensures Said(Absorb(r, o).findings, id) <==> Said(r.findings, id) || SaysId(o, id)
  {
    hide ClampConfidence, WeakestOf;
    if o.Says? {
      var s := Absorb(r, o);
      assert s.findings[|r.findings|] == Clamped(o.draft);
      assert forall i :: 0 <= i < |r.findings| ==> s.findings[i] == r.findings[i];
    }
  }

  lemma AlikeRemember(a: seq<Outcome>, b: seq<Outcome>, at: int, extra: SupportLevel, r: Report, s: Report)
    requires AlikeBut(a, b, at, extra)
    requires ProvedImpossible(r.findings) == ProvedImpossible(s.findings)
    requires Said(r.findings, HintedMappingMayRelocate) == Said(s.findings, HintedMappingMayRelocate)
    ensures ProvedImpossible(AbsorbAll(r, a).findings) == ProvedImpossible(AbsorbAll(s, b).findings)
    ensures Said(AbsorbAll(r, a).findings, HintedMappingMayRelocate) ==
            Said(AbsorbAll(s, b).findings, HintedMappingMayRelocate)
  {
    hide AbsorbAll, Said, ProvedImpossible;
    FoldRemembers(r, a, HintedMappingMayRelocate);
    FoldRemembers(s, b, HintedMappingMayRelocate);
    assert forall i :: 0 <= i < |a| ==> IsStructural(a[i]) == IsStructural(b[i]);
    assert forall i :: 0 <= i < |a| ==>
        SaysId(a[i], HintedMappingMayRelocate) == SaysId(b[i], HintedMappingMayRelocate);
  }

  lemma JoinAlike(a: seq<Outcome>, b: seq<Outcome>, at: int, extra: SupportLevel, x: seq<Outcome>, y: seq<Outcome>)
    requires AlikeBut(a, b, at, extra) && at < |a| && AlikeBut(x, y, -1, Supported)
    ensures AlikeBut(a + x, b + y, at, extra)
  {
    hide Alike, LevelOf, IsStructural, SaysId;
    forall i | |a| <= i < |a + x| ensures Alike((a + x)[i], (b + y)[i]) {
      assert (a + x)[i] == x[i - |a|] && (b + y)[i] == y[i - |b|];
    }
  }

  lemma OneAlike(a: Outcome, b: Outcome)
    requires Alike(a, b)
    ensures AlikeBut([a], [b], -1, Supported)
  {
  }

  lemma OutcomesAlike(q: Requirement, p: Profile)
    ensures AlikeBut(Outcomes(q, p, true), Outcomes(q, p, false), 6, Dropped(q, p))
  {
    hide EarlyRules, LateRules, AbsorbAll, Said, ProvedImpossible, Dropped, Inherited, AlikeBut, Alike, Absorb;
    var r, s := AfterEarly(q, p, true), AfterEarly(q, p, false);
    var early, early', late, late' := EarlyRules(q, p, true), EarlyRules(q, p, false), LateRules(q, p, true),
        LateRules(q, p, false);
    EarlyRulesAlike(q, p);
    LateRulesAlike(q, p);
    AlikeRemember(early, early', 6, Dropped(q, p), NO_OBJECTION, NO_OBJECTION);
    var identity := IdentityOutcome(q, r);
    assert identity == IdentityOutcome(q, s);
    AppendRemembers(r, identity, HintedMappingMayRelocate);
    AppendRemembers(s, identity, HintedMappingMayRelocate);
    AlikeRemember(late, late', -1, Supported, Absorb(r, identity), Absorb(s, identity));
    RetriesAlike(q, AfterLate(q, p, true), AfterLate(q, p, false));
    hide IdentityOutcome, RetryOutcome, LevelOf, IsStructural, SaysId;
    assert Alike(identity, identity) by { SameIsAlike(identity); }
    OneAlike(identity, identity);
    OneAlike(RetryOutcome(q, AfterLate(q, p, true)), RetryOutcome(q, AfterLate(q, p, false)));
    JoinAlike(early, early', 6, Dropped(q, p), [identity], [identity]);
    JoinAlike(early + [identity], early' + [identity], 6, Dropped(q, p), late, late');
    JoinAlike(early + [identity] + late, early' + [identity] + late', 6, Dropped(q, p),
              [RetryOutcome(q, AfterLate(q, p, true))], [RetryOutcome(q, AfterLate(q, p, false))]);
  }

  lemma SameIsAlike(o: Outcome)
    ensures Alike(o, o)
  {
  }

  lemma RetriesAlike(q: Requirement, r: Report, s: Report)
    requires ProvedImpossible(r.findings) == ProvedImpossible(s.findings)
    ensures Alike(RetryOutcome(q, r), RetryOutcome(q, s))
  {
  }

  /**
   * Reporting unknowns never changes the verdict, except that a page-size
   * requirement against an unknown page size then counts as UNKNOWN.
   */
  lemma ReportingUnknowns(q: Requirement, p: Profile)
    requires q.operation != OtherOperation
    ensures Assess(q, p, true).overall == Combine(Assess(q, p, false).overall, Dropped(q, p))
  {
    hide Assess, Outcomes, Dropped, AbsorbAll, Alike, LevelOf, SaysId, IsStructural;
    var a, b := Outcomes(q, p, true), Outcomes(q, p, false);
    AssessIsFold(q, p, true);
    AssessIsFold(q, p, false);
    OutcomesAlike(q, p);
    assert |a| >= 13 by { EnoughOutcomes(q, p); }
    SameJoin(a, b, 6, Dropped(q, p));
  }

  /** Four bytes anywhere, with pages of 4096 bytes. */
  const PAGES_OF_4096 := Requirement(
    Map,
    Request(None, 4, false, false, None, None, None, None, false, Some(4096), Equal, true,
            true, false, false, false, false, None, 0, false, WithinFinalPartialPage, false),
    false, false, None, false, false, SpecifiedGuarantee)

  /** A host known to map anonymous memory, and nothing else about it. */
  const BARE_HOST := Profile(
    RangeStore.RangeFacts(NotKnown, NotKnown, [], []),
    Known(true, MeasuredCapability),
    NotKnown, NotKnown, NotKnown, NotKnown, NotKnown, NotKnown, NotKnown, NotKnown, NotKnown, NotKnown, NotKnown,
    NotKnown, NotKnown, 0)

  /** The verdict on one requirement and one host is SUPPORTED only as long as unknowns are not reported. */
  lemma SilenceChangesTheVerdict()
    ensures Assess(PAGES_OF_4096, BARE_HOST, false).overall == Supported
    ensures Assess(PAGES_OF_4096, BARE_HOST, true).overall == Unknown
  {
    hide Assess;
    SupportedExactly(PAGES_OF_4096, BARE_HOST, false);
    ReportingUnknowns(PAGES_OF_4096, BARE_HOST);
  }

  lemma EnoughOutcomes(q: Requirement, p: Profile)
    ensures |Outcomes(q, p, true)| >= 13
  {
    hide EarlyRules, LateRules, AfterEarly, AfterLate;
  }

  lemma SameJoin(a: seq<Outcome>, b: seq<Outcome>, at: nat, extra: SupportLevel)
    requires AlikeBut(a, b, at, extra) && at < |a|
    ensures AbsorbAll(NO_OBJECTION, a).overall == Combine(AbsorbAll(NO_OBJECTION, b).overall, extra)
  {
    hide AbsorbAll, LevelOf, SaysId, IsStructural;
    FoldIsJoin(a);
    FoldIsJoin(b);
    var x, y := AbsorbAll(NO_OBJECTION, a).overall, AbsorbAll(NO_OBJECTION, b).overall;
    assert forall i :: 0 <= i < |a| ==>
        LevelOf(b[i]).Rank() <= LevelOf(a[i]).Rank() <= Combine(LevelOf(b[i]), extra).Rank();
    if y != Supported {
      var i :| 0 <= i < |b| && LevelOf(b[i]) == y;
      assert y.Rank() <= LevelOf(a[i]).Rank() <= x.Rank();
    }
    assert extra.Rank() <= LevelOf(a[at]).Rank() <= x.Rank();
    if x != Supported {
      var i :| 0 <= i < |a| && LevelOf(a[i]) == x;
      assert x.Rank() <= Combine(LevelOf(b[i]), extra).Rank() <= Combine(y, extra).Rank();
    }
  }

  // -------------------------------------------------------------------------
  // The rule about other findings
  // -------------------------------------------------------------------------

  lemma {:induction false} ImpossibilityIsWeakest(findings: seq<Finding>)
    ensures forall i :: 0 <= i < |findings| && findings[i].structural ==>
              WeakestOf(findings[i].chain).Rank() <= ImpossibilityEvidence(findings).Rank()
  {
    hide WeakestOf;
    if findings != [] {
      var n := |findings| - 1;
      ImpossibilityIsWeakest(findings[..n]);
      assert forall i :: 0 <= i < n ==> findings[..n][i] == findings[i];
    }
  }

  /**
   * Retrying is called a permanent error exactly when the program retries and
   * another rule proved impossibility; the confidence of saying so is no
   * stronger than any of those findings' evidence allows.
   */
  lemma RetryInheritsItsEvidence(q: Requirement, r: Report)
    ensures RetryOutcome(q, r).Says? <==> q.retries && ProvedImpossible(r.findings)
    ensures RetryOutcome(q, r).Says? ==>
              var f := Clamped(RetryOutcome(q, r).draft);
              f.id == PermanentErrorRetried && f.impact == Unsupported && !f.structural
              && forall i :: 0 <= i < |r.findings| && r.findings[i].structural ==>
                   ConfidenceCeiling(WeakestOf(r.findings[i].chain)).Rank() <= f.confidence.Rank()
  {
    hide WeakestOf, ConfidenceCeiling, ClampConfidence, ImpossibilityEvidence;
    var o := RetryOutcome(q, r);
    if o.Says? {
      var w := ImpossibilityEvidence(r.findings);
      ImpossibilityIsWeakest(r.findings);
      ClampNeverOverclaims(Proven, o.draft.chain);
      assert o.draft.chain[1] == w;
      forall i | 0 <= i < |r.findings| && r.findings[i].structural
        ensures ConfidenceCeiling(WeakestOf(r.findings[i].chain)).Rank() <= Clamped(o.draft).confidence.Rank()
      {
        CeilingIsMonotone(WeakestOf(r.findings[i].chain), w);
      }
    }
  }
}
