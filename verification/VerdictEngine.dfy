/** Folding the rules into one verdict, and what the verdict may be trusted for. */
module VerdictEngine {
  import opened Evidence
  import opened VerdictRules

  datatype Finding = Finding(id: FindingId, confidence: Confidence, impact: SupportLevel, structural: bool,
      chain: seq<EvidenceClass>)

  datatype Report = Report(overall: SupportLevel, findings: seq<Finding>)

  const NO_OBJECTION := Report(Supported, [])

  // -------------------------------------------------------------------------
  // The verdict as a fold
  // -------------------------------------------------------------------------

  /** The one place where overclaiming is prevented. */
  function Clamped(d: Draft): Finding {
    Finding(d.id, ClampConfidence(d.desired, WeakestOf(d.chain)), d.impact, d.structural, d.chain)
  }

  function Absorb(r: Report, o: Outcome): Report {
    match o
    case Quiet => r
    case Silent(level) => r.(overall := Combine(r.overall, level))
    case Says(d) => Report(Combine(r.overall, d.impact), r.findings + [Clamped(d)])
  }

  function AbsorbAll(r: Report, outcomes: seq<Outcome>): Report {
    if outcomes == [] then r else Absorb(AbsorbAll(r, outcomes[..|outcomes| - 1]), outcomes[|outcomes| - 1])
  }

  /** The rules up to the one that looks at what has been said. */
  function EarlyRules(q: Requirement, p: Profile, report: bool): (rules: seq<Outcome>)
    ensures |rules| == 13
  {
    [FallbackContradiction(q), BaselineMapping(q, p, report), SizeFeasibility(q, p), AddressBounds(q, p, report),
     Displacement(q), ReservationAlignment(q, p), PageSize(q, p, report), AddressAlignment(q, p), SizeGranularity(q, p),
     RangeAvailability(q, p, report), ExactCapability(q, p), NonDestructive(q, p), HintedRelocation(q, p)]
  }

  function LateRules(q: Requirement, p: Profile, report: bool): seq<Outcome> {
    [WriteExecute(q, p), ExecutableMapping(q, p), JitEntitlement(q, p), ReserveCommit(q, p), Truncation(q, p),
        BeyondEof(q, p, report)]
  }

  predicate Said(findings: seq<Finding>, id: FindingId) {
    exists i :: 0 <= i < |findings| && findings[i].id == id
  }

  predicate ProvedImpossible(findings: seq<Finding>) {
    exists i :: 0 <= i < |findings| && findings[i].structural
  }

  /** The weakest class behind any finding that proved impossibility. */
  function ImpossibilityEvidence(findings: seq<Finding>): EvidenceClass {
    if findings == [] then SpecifiedGuarantee
    else
      var last, rest := findings[|findings| - 1], ImpossibilityEvidence(findings[..|findings| - 1]);
      if last.structural then Weakest(rest, WeakestOf(last.chain)) else rest
  }

  function Inherited(findings: seq<Finding>): EvidenceClass {
    if ProvedImpossible(findings) then ImpossibilityEvidence(findings) else UnknownEvidence
  }

  function AfterEarly(q: Requirement, p: Profile, report: bool): Report {
    AbsorbAll(NO_OBJECTION, EarlyRules(q, p, report))
  }

  function IdentityOutcome(q: Requirement, r: Report): Outcome {
    Identity(q, Said(r.findings, HintedMappingMayRelocate), ProvedImpossible(r.findings))
  }

  function AfterLate(q: Requirement, p: Profile, report: bool): Report {
    var r := AfterEarly(q, p, report);
    AbsorbAll(Absorb(r, IdentityOutcome(q, r)), LateRules(q, p, report))
  }

  function RetryOutcome(q: Requirement, r: Report): Outcome {
    RetryOfPermanentError(q, ProvedImpossible(r.findings), Inherited(r.findings))
  }

  function Assess(q: Requirement, p: Profile, report: bool): Report {
    if q.operation == OtherOperation then Report(Unknown, [])
    else
      var r := AfterLate(q, p, report);
      Absorb(r, RetryOutcome(q, r))
  }

  // -------------------------------------------------------------------------
  // The engine
  // -------------------------------------------------------------------------

  class Analysis {
    const q: Requirement
    const p: Profile
    const reportUnknowns: bool
    var overall: SupportLevel
    var findings: seq<Finding>

    constructor (q: Requirement, p: Profile, reportUnknowns: bool)
      ensures this.q == q && this.p == p && this.reportUnknowns == reportUnknowns
      ensures Current() == NO_OBJECTION
    {
      this.q, this.p, this.reportUnknowns := q, p, reportUnknowns;
      overall, findings := Supported, [];
    }

    function Current(): Report
      reads this
    {
      Report(overall, findings)
    }

    method Emit(d: Draft)
      modifies this
      ensures Current() == Absorb(old(Current()), Says(d))
    {
      var weakest := WeakestClass(d.chain);
      var confidence := ClampConfidence(d.desired, weakest);
      overall := Combine(overall, d.impact);
      findings := findings + [Finding(d.id, confidence, d.impact, d.structural, d.chain)];
    }

    method Apply(o: Outcome)
      modifies this
      ensures Current() == Absorb(old(Current()), o)
    {
      match o
      case Quiet =>
      case Silent(level) => overall := Combine(overall, level);
      case Says(d) => Emit(d);
    }

    method ApplyAll(outcomes: seq<Outcome>)
      modifies this
      ensures Current() == AbsorbAll(old(Current()), outcomes)
    {
      hide Absorb;
      for i := 0 to |outcomes|
        invariant Current() == AbsorbAll(old(Current()), outcomes[..i])
      {
        assert outcomes[..i + 1][..i] == outcomes[..i];
        Apply(outcomes[i]);
      }
      assert outcomes[..|outcomes|] == outcomes;
    }

    method AlreadyEmitted(id: FindingId) returns (said: bool)
      ensures said == Said(findings, id)
    {
      for i := 0 to |findings|
        invariant forall k :: 0 <= k < i ==> findings[k].id != id
      {
        if findings[i].id == id {
          return true;
        }
      }
      return false;
    }

    method EstablishedImpossibility() returns (impossible: bool)
      ensures impossible == ProvedImpossible(findings)
    {
      for i := 0 to |findings|
        invariant forall k :: 0 <= k < i ==> !findings[k].structural
      {
        if findings[i].structural {
          return true;
        }
      }
      return false;
    }

    method ProvenUnsupportedEvidence() returns (w: EvidenceClass)
      ensures w == Inherited(findings)
    {
      hide WeakestOf, Weakest;
      w := SpecifiedGuarantee;
      var found := false;
      for i := 0 to |findings|
        invariant w == ImpossibilityEvidence(findings[..i])
        invariant found <==> exists k :: 0 <= k < i && findings[k].structural
      {
        assert findings[..i + 1][..i] == findings[..i];
        if findings[i].structural {
          var weakest := WeakestClass(findings[i].chain);
          w := Weakest(w, weakest);
          found := true;
        }
      }
      assert findings[..|findings|] == findings;
      return if found then w else UnknownEvidence;
    }

    method Run()
      requires Current() == NO_OBJECTION
      modifies this
      ensures Current() == Assess(q, p, reportUnknowns)
    {
      hide AbsorbAll, Absorb, EarlyRules, LateRules, Said, ProvedImpossible, Inherited;
      if q.operation == OtherOperation {
        overall := Unknown;
        return;
      }
      ApplyAll(EarlyRules(q, p, reportUnknowns));
      var relocation := AlreadyEmitted(HintedMappingMayRelocate);
      var impossible := EstablishedImpossibility();
      Apply(Identity(q, relocation, impossible));
      ApplyAll(LateRules(q, p, reportUnknowns));
      impossible := EstablishedImpossibility();
      var inherited := ProvenUnsupportedEvidence();
      Apply(RetryOfPermanentError(q, impossible, inherited));
    }
  }

  // -------------------------------------------------------------------------
  // The overall level is the join of everything said or joined in silence
  // -------------------------------------------------------------------------

  function LevelOf(o: Outcome): SupportLevel {
    match o
    case Quiet => Supported
    case Silent(level) => level
    case Says(d) => d.impact
  }

  /** All twenty-one outcomes of a run, in order. */
  function Outcomes(q: Requirement, p: Profile, report: bool): seq<Outcome> {
    EarlyRules(q, p, report) + [IdentityOutcome(q, AfterEarly(q, p, report))] + LateRules(q, p, report)
    + [RetryOutcome(q, AfterLate(q, p, report))]
  }

  lemma {:induction false} AbsorbInTwo(r: Report, a: seq<Outcome>, b: seq<Outcome>)
    ensures AbsorbAll(r, a + b) == AbsorbAll(AbsorbAll(r, a), b)
    decreases |b|
  {
    hide Absorb;
    if b == [] {
      assert a + b == a;
    } else {
      var n := |b| - 1;
      assert (a + b)[..|a + b| - 1] == a + b[..n];
      AbsorbInTwo(r, a, b[..n]);
    }
  }

  lemma AssessIsFold(q: Requirement, p: Profile, report: bool)
    requires q.operation != OtherOperation
    ensures Assess(q, p, report) == AbsorbAll(NO_OBJECTION, Outcomes(q, p, report))
  {
    hide EarlyRules, LateRules, Absorb, IdentityOutcome, RetryOutcome;
    var early, late := EarlyRules(q, p, report), LateRules(q, p, report);
    var identity, retry := IdentityOutcome(q, AfterEarly(q, p, report)), RetryOutcome(q, AfterLate(q, p, report));
    AbsorbInTwo(NO_OBJECTION, early + [identity] + late, [retry]);
    AbsorbInTwo(NO_OBJECTION, early + [identity], late);
    AbsorbInTwo(NO_OBJECTION, early, [identity]);
    AbsorbOne(AfterEarly(q, p, report), identity);
    AbsorbOne(AfterLate(q, p, report), retry);
  }

  lemma AbsorbOne(r: Report, o: Outcome)
    ensures AbsorbAll(r, [o]) == Absorb(r, o)
  {
    hide Absorb;
    assert [o][..0] == [] && AbsorbAll(r, [o][..0]) == r;
  }

  /** The fold's level is an upper bound of all levels, and one of them. */
  lemma {:induction false} FoldIsJoin(outcomes: seq<Outcome>)
    ensures var r := AbsorbAll(NO_OBJECTION, outcomes);
      && (forall i :: 0 <= i < |outcomes| ==> LevelOf(outcomes[i]).Rank() <= r.overall.Rank())
      && (r.overall == Supported || exists i :: 0 <= i < |outcomes| && LevelOf(outcomes[i]) == r.overall)
  {
    if outcomes != [] {
      var n := |outcomes| - 1;
      FoldIsJoin(outcomes[..n]);
      var before := AbsorbAll(NO_OBJECTION, outcomes[..n]);
      forall i | 0 <= i < n ensures LevelOf(outcomes[i]).Rank() <= before.overall.Rank() {
        assert outcomes[..n][i] == outcomes[i];
      }
      if before.overall != Supported {
        var i :| 0 <= i < n && LevelOf(outcomes[..n][i]) == before.overall;
        assert outcomes[..n][i] == outcomes[i];
      }
    }
  }

  /** The verdict is the least level that no rule objects to. */
  lemma OverallIsJoin(q: Requirement, p: Profile, report: bool)
    requires q.operation != OtherOperation
    ensures var r, all := Assess(q, p, report), Outcomes(q, p, report);
      && (forall i :: 0 <= i < |all| ==> LevelOf(all[i]).Rank() <= r.overall.Rank())
      && (r.overall == Supported || exists i :: 0 <= i < |all| && LevelOf(all[i]) == r.overall)
  {
    hide Outcomes, Assess, AbsorbAll;
    AssessIsFold(q, p, report);
    FoldIsJoin(Outcomes(q, p, report));
  }
}
