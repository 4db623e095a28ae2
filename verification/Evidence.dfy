/** How a fact is known, how strong a conclusion may be, and how verdicts are joined. */
module Evidence {

  /** Strongest first; the declared order is the source's numeric order. */
  datatype EvidenceClass =
    | SpecifiedGuarantee
    | MeasuredCapability
    | StaticallyInferred
    | BoundedCounterexample
    | ObservedInvariant
    | HeuristicRisk
    | UnknownEvidence
  {
    function Rank(): nat {
      match this
      case SpecifiedGuarantee => 0
      case MeasuredCapability => 1
      case StaticallyInferred => 2
      case BoundedCounterexample => 3
      case ObservedInvariant => 4
      case HeuristicRisk => 5
      case UnknownEvidence => 6
    }
  }

  /** Strongest first. */
  datatype Confidence = Proven | Counterexample | InvariantObserved | Predictive | Hypothesis {
    function Rank(): nat {
      match this
      case Proven => 0
      case Counterexample => 1
      case InvariantObserved => 2
      case Predictive => 3
      case Hypothesis => 4
    }
  }

  datatype SupportLevel = Supported | ConditionallySupported | Unknown | Unsupported {
    function Rank(): nat {
      match this
      case Supported => 0
      case ConditionallySupported => 1
      case Unknown => 2
      case Unsupported => 3
    }
  }

  /** A value that knows how it came to be known. */
  datatype Fact<+T> = NotKnown | Known(value: T, evidence: EvidenceClass) {
    function Evidence(): EvidenceClass {
      if Known? then evidence else UnknownEvidence
    }
  }

  function Weakest(a: EvidenceClass, b: EvidenceClass): EvidenceClass {
    if a.Rank() >= b.Rank() then a else b
  }

  function ConfidenceCeiling(weakestFact: EvidenceClass): Confidence {
    match weakestFact
    case SpecifiedGuarantee => Proven
    case MeasuredCapability => Proven
    case ObservedInvariant => InvariantObserved
    case StaticallyInferred => Counterexample
    case BoundedCounterexample => Counterexample
    case HeuristicRisk => Predictive
    case UnknownEvidence => Hypothesis
  }

  function ClampConfidence(desired: Confidence, weakestFact: EvidenceClass): Confidence {
    var ceiling := ConfidenceCeiling(weakestFact);
    if desired.Rank() > ceiling.Rank() then desired else ceiling
  }

  function Combine(a: SupportLevel, b: SupportLevel): SupportLevel {
    if a.Rank() >= b.Rank() then a else b
  }

  /** `Combine` is a join: associative, commutative, idempotent, with SUPPORTED as its unit. */
  lemma CombineIsJoin(a: SupportLevel, b: SupportLevel, c: SupportLevel)
    ensures Combine(a, Combine(b, c)) == Combine(Combine(a, b), c)
    ensures Combine(a, b) == Combine(b, a)
    ensures Combine(a, a) == a && Combine(Supported, a) == a
  {
  }

  /** The class driving a finding's clamp: the weakest in its chain, or unknown when the chain is empty. */
  function WeakestOf(chain: seq<EvidenceClass>): EvidenceClass {
    if chain == [] then UnknownEvidence else FoldWeakest(chain)
  }

  function FoldWeakest(chain: seq<EvidenceClass>): EvidenceClass {
    if chain == [] then SpecifiedGuarantee
    else Weakest(FoldWeakest(chain[..|chain| - 1]), chain[|chain| - 1])
  }

  method WeakestClass(steps: seq<EvidenceClass>) returns (w: EvidenceClass)
    ensures w == WeakestOf(steps)
  {
    if |steps| == 0 {
      return UnknownEvidence;
    }
    w := SpecifiedGuarantee;
    for i := 0 to |steps|
      invariant w == FoldWeakest(steps[..i])
    {
      assert steps[..i + 1][..i] == steps[..i];
      w := Weakest(w, steps[i]);
    }
    assert steps[..|steps|] == steps;
  }

  /** The weakest class is one of the chain's own, and no step is weaker. */
  lemma {:induction false} WeakestIsExtreme(chain: seq<EvidenceClass>)
    ensures chain != [] ==> WeakestOf(chain) in chain
    ensures forall k :: 0 <= k < |chain| ==> chain[k].Rank() <= WeakestOf(chain).Rank()
  {
    if chain == [] {
    } else {
      var n := |chain| - 1;
      WeakestIsExtreme(chain[..n]);
      if n == 0 {
        assert FoldWeakest(chain[..0]) == SpecifiedGuarantee;
      } else {
        forall k | 0 <= k < n ensures chain[k].Rank() <= WeakestOf(chain).Rank() {
          assert chain[..n][k] == chain[k];
        }
      }
    }
  }

  /**
   * No overclaiming: a clamped confidence is never stronger than what was
   * asked for, nor than the ceiling of any single step of the chain; and it is
   * the strongest confidence with both properties.
   */
  lemma ClampNeverOverclaims(desired: Confidence, chain: seq<EvidenceClass>)
    ensures var c := ClampConfidence(desired, WeakestOf(chain));
      && desired.Rank() <= c.Rank()
      && (forall k :: 0 <= k < |chain| ==> ConfidenceCeiling(chain[k]).Rank() <= c.Rank())
      && (|| c == desired || (chain == [] && c == Hypothesis)
          || exists k :: 0 <= k < |chain| && c == ConfidenceCeiling(chain[k]))
  {
    WeakestIsExtreme(chain);
  }

  /** The three orders, strongest or mildest first; nothing ties. */
  lemma OrdersAreStrict()
    ensures SpecifiedGuarantee.Rank() < MeasuredCapability.Rank() < StaticallyInferred.Rank()
            < BoundedCounterexample.Rank() < ObservedInvariant.Rank() < HeuristicRisk.Rank() < UnknownEvidence.Rank()
    ensures Proven.Rank() < Counterexample.Rank() < InvariantObserved.Rank() < Predictive.Rank() < Hypothesis.Rank()
    ensures Supported.Rank() < ConditionallySupported.Rank() < Unknown.Rank() < Unsupported.Rank()
  {
  }

  /** What each class allows at most. */
  lemma CeilingExactly(c: EvidenceClass)
    ensures ConfidenceCeiling(c) == Proven <==> c in {SpecifiedGuarantee, MeasuredCapability}
    ensures ConfidenceCeiling(c) == Counterexample <==> c in {StaticallyInferred, BoundedCounterexample}
    ensures ConfidenceCeiling(c) == InvariantObserved <==> c == ObservedInvariant
    ensures ConfidenceCeiling(c) == Predictive <==> c == HeuristicRisk
    ensures ConfidenceCeiling(c) == Hypothesis <==> c == UnknownEvidence
  {
  }

  /** Weakening a step never strengthens the finding: the ceiling follows the order of the evidence classes. */
  lemma CeilingIsMonotone(a: EvidenceClass, b: EvidenceClass)
    requires a.Rank() <= b.Rank()
    ensures ConfidenceCeiling(a).Rank() <= ConfidenceCeiling(b).Rank()
  {
  }
}
