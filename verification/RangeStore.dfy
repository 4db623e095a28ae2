/** The range store: collapsing redundant ranges, and answering "can this range be mapped?". */
module RangeStore {
  import opened Words
  import opened Wrappers
  import opened Evidence
  import opened Ranges

  // -------------------------------------------------------------------------
  // Querying
  // -------------------------------------------------------------------------

  datatype RangeFacts = RangeFacts(
    minMapAddress: Fact<u64>,
    maxUserAddress: Fact<u64>,
    unavailable: seq<ClassifiedRange>,
    available: seq<ClassifiedRange>)

  datatype RangeVerdict = RangeVerdict(level: SupportLevel, evidence: EvidenceClass, conflict: Option<AddressRange>)

  predicate BelowMinimum(facts: RangeFacts, r: AddressRange) {
    facts.minMapAddress.Known? && r.start < facts.minMapAddress.value
  }

  predicate AboveMaximum(facts: RangeFacts, r: AddressRange) {
    facts.maxUserAddress.Known? && r.end > facts.maxUserAddress.value
  }

  predicate Conflicts(ranges: seq<ClassifiedRange>, r: AddressRange) {
    exists k :: 0 <= k < |ranges| && ranges[k].range.Intersects(r)
  }

  predicate Established(ranges: seq<ClassifiedRange>, r: AddressRange) {
    exists k :: 0 <= k < |ranges| && ranges[k].range.Contains(r)
  }

  function Level(facts: RangeFacts, r: AddressRange): SupportLevel {
    if r.Empty() || BelowMinimum(facts, r) || AboveMaximum(facts, r) || Conflicts(facts.unavailable, r) then Unsupported
    else if Established(facts.available, r) then Supported
    else Unknown
  }

  /** The first recorded range that meets, or that contains, the one asked for. */
  function FirstMeeting(ranges: seq<ClassifiedRange>, r: AddressRange): Option<ClassifiedRange> {
    if ranges == [] then None
    else if ranges[0].range.Intersects(r) then Some(ranges[0])
    else FirstMeeting(ranges[1..], r)
  }

  function FirstHolding(ranges: seq<ClassifiedRange>, r: AddressRange): Option<ClassifiedRange> {
    if ranges == [] then None
    else if ranges[0].range.Contains(r) then Some(ranges[0])
    else FirstHolding(ranges[1..], r)
  }

  /** Hard bounds first, then the unavailable list, then the available one; the first match explains the answer. */
  function Verdict(facts: RangeFacts, r: AddressRange): RangeVerdict {
    if r.Empty() then RangeVerdict(Unsupported, SpecifiedGuarantee, None)
    else if BelowMinimum(facts, r) then RangeVerdict(Unsupported, facts.minMapAddress.evidence, None)
    else if AboveMaximum(facts, r) then RangeVerdict(Unsupported, facts.maxUserAddress.evidence, None)
    else
      match FirstMeeting(facts.unavailable, r)
      case Some(u) => RangeVerdict(Unsupported, u.evidence, Some(u.range))
      case None =>
        match FirstHolding(facts.available, r)
        case Some(a) => RangeVerdict(Supported, a.evidence, None)
        case None => RangeVerdict(Unknown, UnknownEvidence, None)
  }

  /** `u` is recorded, has the property, and nothing recorded before it has. */
  ghost predicate IsFirst(ranges: seq<ClassifiedRange>, u: ClassifiedRange, r: AddressRange, holding: bool) {
    exists k :: 0 <= k < |ranges| && ranges[k] == u && Justifies(u, r, holding)
                && forall j :: 0 <= j < k ==> !Justifies(ranges[j], r, holding)
  }

  predicate Justifies(u: ClassifiedRange, r: AddressRange, holding: bool) {
    if holding then u.range.Contains(r) else u.range.Intersects(r)
  }

  lemma FirstOfTail(ranges: seq<ClassifiedRange>, u: ClassifiedRange, r: AddressRange, holding: bool)
    requires ranges != [] && !Justifies(ranges[0], r, holding) && IsFirst(ranges[1..], u, r, holding)
    ensures IsFirst(ranges, u, r, holding)
  {
    var k :| 0 <= k < |ranges[1..]| && ranges[1..][k] == u && Justifies(u, r, holding)
             && forall j :: 0 <= j < k ==> !Justifies(ranges[1..][j], r, holding);
    assert ranges[k + 1] == u;
    forall j | 0 <= j < k + 1 ensures !Justifies(ranges[j], r, holding) {
      assert j > 0 ==> ranges[j] == ranges[1..][j - 1];
    }
  }

  lemma {:induction false} MeetingIsConflict(ranges: seq<ClassifiedRange>, r: AddressRange)
    ensures FirstMeeting(ranges, r).Some? <==> Conflicts(ranges, r)
    ensures FirstMeeting(ranges, r).Some? ==> IsFirst(ranges, FirstMeeting(ranges, r).value, r, false)
  {
    if ranges != [] && !ranges[0].range.Intersects(r) {
      MeetingIsConflict(ranges[1..], r);
      if Conflicts(ranges, r) {
        var k :| 0 <= k < |ranges| && ranges[k].range.Intersects(r);
        assert ranges[1..][k - 1] == ranges[k];
      }
      if Conflicts(ranges[1..], r) {
        var k :| 0 <= k < |ranges[1..]| && ranges[1..][k].range.Intersects(r);
        assert ranges[k + 1] == ranges[1..][k];
        FirstOfTail(ranges, FirstMeeting(ranges, r).value, r, false);
      }
    }
  }

  lemma {:induction false} HoldingIsEstablished(ranges: seq<ClassifiedRange>, r: AddressRange)
    ensures FirstHolding(ranges, r).Some? <==> Established(ranges, r)
    ensures FirstHolding(ranges, r).Some? ==> IsFirst(ranges, FirstHolding(ranges, r).value, r, true)
  {
    if ranges != [] && !ranges[0].range.Contains(r) {
      HoldingIsEstablished(ranges[1..], r);
      if Established(ranges, r) {
        var k :| 0 <= k < |ranges| && ranges[k].range.Contains(r);
        assert ranges[1..][k - 1] == ranges[k];
      }
      if Established(ranges[1..], r) {
        var k :| 0 <= k < |ranges[1..]| && ranges[1..][k].range.Contains(r);
        assert ranges[k + 1] == ranges[1..][k];
        FirstOfTail(ranges, FirstHolding(ranges, r).value, r, true);
      }
    }
  }

  /**
   * The answer has the level the recorded facts give it, and rests on the evidence of the first fact that
   * justifies it: a bound, a recorded range, or none at all.
   */
  lemma VerdictIsJustified(facts: RangeFacts, r: AddressRange)
    ensures Verdict(facts, r).level == Level(facts, r)
    ensures var v, bottom, top := Verdict(facts, r), facts.minMapAddress, facts.maxUserAddress;
      if r.Empty() then v.evidence == SpecifiedGuarantee && v.conflict.None?
      else if BelowMinimum(facts, r) then v.evidence == bottom.evidence && v.conflict.None?
      else if AboveMaximum(facts, r) then v.evidence == top.evidence && v.conflict.None?
      else if v.level == Unsupported then
        exists u :: IsFirst(facts.unavailable, u, r, false) && v.conflict == Some(u.range) && v.evidence == u.evidence
      else
        && v.conflict.None?
        && if v.level == Supported
           then exists u :: IsFirst(facts.available, u, r, true) && v.evidence == u.evidence
           else v.evidence == UnknownEvidence
  {
    MeetingIsConflict(facts.unavailable, r);
    HoldingIsEstablished(facts.available, r);
  }

  method QueryRange(facts: RangeFacts, r: AddressRange) returns (v: RangeVerdict)
    ensures v == Verdict(facts, r)
  {
    if r.Empty() {
      return RangeVerdict(Unsupported, SpecifiedGuarantee, None);
    }
    if BelowMinimum(facts, r) {
      return RangeVerdict(Unsupported, facts.minMapAddress.evidence, None);
    }
    if AboveMaximum(facts, r) {
      return RangeVerdict(Unsupported, facts.maxUserAddress.evidence, None);
    }
    for i := 0 to |facts.unavailable|
      invariant FirstMeeting(facts.unavailable[i..], r) == FirstMeeting(facts.unavailable, r)
    {
      var u := facts.unavailable[i];
      if u.range.Intersects(r) {
        return RangeVerdict(Unsupported, u.evidence, Some(u.range));
      }
      assert facts.unavailable[i..][1..] == facts.unavailable[i + 1..];
    }
    for i := 0 to |facts.available|
      invariant FirstHolding(facts.available[i..], r) == FirstHolding(facts.available, r)
    {
      var a := facts.available[i];
      if a.range.Contains(r) {
        return RangeVerdict(Supported, a.evidence, None);
      }
      assert facts.available[i..][1..] == facts.available[i + 1..];
    }
    return RangeVerdict(Unknown, UnknownEvidence, None);
  }

  /** On non-empty ranges SUPPORTED passes to every subrange and UNSUPPORTED to every superrange. */
  lemma LevelsFollowContainment(facts: RangeFacts, inner: AddressRange, outer: AddressRange)
    requires outer.Contains(inner)
    ensures Level(facts, outer) == Supported ==> Level(facts, inner) == Supported
    ensures Level(facts, inner) == Unsupported ==> Level(facts, outer) == Unsupported
  {
    if Conflicts(facts.unavailable, inner) {
      var k :| 0 <= k < |facts.unavailable| && facts.unavailable[k].range.Intersects(inner);
      assert facts.unavailable[k].range.Intersects(outer);
    }
    if Established(facts.available, outer) {
      var k :| 0 <= k < |facts.available| && facts.available[k].range.Contains(outer);
      assert facts.available[k].range.Contains(inner);
    }
  }

  // -------------------------------------------------------------------------
  // Collapsing
  // -------------------------------------------------------------------------

  /** Start ascending, widest first. */
  predicate Before(a: AddressRange, b: AddressRange) {
    a.start < b.start || (a.start == b.start && a.end >= b.end)
  }

  predicate Sorted(ranges: seq<ClassifiedRange>) {
    forall i, j :: 0 <= i < j < |ranges| ==> Before(ranges[i].range, ranges[j].range)
  }

  predicate Subsumes(a: AddressRange, b: AddressRange) {
    a == b || a.Contains(b)
  }

  predicate Subsumed(kept: seq<ClassifiedRange>, r: AddressRange) {
    exists k :: 0 <= k < |kept| && Subsumes(kept[k].range, r)
  }

  predicate Antichain(ranges: seq<ClassifiedRange>) {
    forall i, j :: 0 <= i < |ranges| && 0 <= j < |ranges| && i != j ==> !Subsumes(ranges[i].range, ranges[j].range)
  }

  /** What collapsing promises, whatever order ties are sorted in. */
  ghost predicate CollapseOf(ranges: seq<ClassifiedRange>, kept: seq<ClassifiedRange>) {
    && Sorted(kept) && Antichain(kept)
    && (forall x :: x in kept ==> x in ranges)
    && (forall x :: x in ranges ==> Subsumed(kept, x.range))
  }

  lemma InsertionAddsOne(sorted: seq<ClassifiedRange>, i: nat, x: ClassifiedRange)
    requires i <= |sorted|
    ensures multiset(sorted[..i] + [x] + sorted[i..]) == multiset(sorted) + multiset{x}
  {
    assert sorted == sorted[..i] + sorted[i..];
  }

  lemma InsertionKeepsOrder(sorted: seq<ClassifiedRange>, i: nat, x: ClassifiedRange)
    requires Sorted(sorted) && i <= |sorted| && forall k :: 0 <= k < i ==> Before(sorted[k].range, x.range)
    requires i < |sorted| ==> !Before(sorted[i].range, x.range)
    ensures Sorted(sorted[..i] + [x] + sorted[i..])
  {
  }

  method InsertSorted(sorted: seq<ClassifiedRange>, x: ClassifiedRange) returns (r: seq<ClassifiedRange>)
    requires Sorted(sorted)
    ensures Sorted(r)
    ensures multiset(r) == multiset(sorted) + multiset{x}
  {
    var i := 0;
    while i < |sorted| && Before(sorted[i].range, x.range)
      invariant 0 <= i <= |sorted|
      invariant forall k :: 0 <= k < i ==> Before(sorted[k].range, x.range)
    {
      i := i + 1;
    }
    InsertionAddsOne(sorted, i, x);
    InsertionKeepsOrder(sorted, i, x);
    r := sorted[..i] + [x] + sorted[i..];
  }

  /** `std::sort`: some sorted arrangement of the ranges, each as often as it was given. */
  method SortRanges(ranges: seq<ClassifiedRange>) returns (r: seq<ClassifiedRange>)
    ensures Sorted(r)
    ensures multiset(r) == multiset(ranges)
  {
    r := [];
    for i := 0 to |ranges|
      invariant Sorted(r)
      invariant multiset(r) == multiset(ranges[..i])
    {
      r := InsertSorted(r, ranges[i]);
      assert ranges[..i + 1] == ranges[..i] + [ranges[i]];
    }
    assert ranges[..|ranges|] == ranges;
  }

  lemma SameMembers(a: seq<ClassifiedRange>, b: seq<ClassifiedRange>)
    requires multiset(a) == multiset(b)
    ensures forall x :: x in a <==> x in b
  {
    forall x ensures x in a <==> x in b {
      assert x in a <==> x in multiset(a);
      assert x in b <==> x in multiset(b);
    }
  }

  method CollapseContainedRanges(ranges: seq<ClassifiedRange>) returns (kept: seq<ClassifiedRange>)
    ensures CollapseOf(ranges, kept)
  {
    var sorted := SortRanges(ranges);
    SameMembers(sorted, ranges);
    kept := [];
    for i := 0 to |sorted|
      invariant Sorted(kept) && Antichain(kept)
      invariant forall x :: x in kept ==> x in sorted[..i]
      invariant forall x :: x in sorted[..i] ==> Subsumed(kept, x.range)
    {
      assert sorted[..i + 1] == sorted[..i] + [sorted[i]];
      if !Subsumed(kept, sorted[i].range) {
        forall k | 0 <= k < |kept|
          ensures Before(kept[k].range, sorted[i].range) && !Subsumes(sorted[i].range, kept[k].range)
        {
          assert kept[k] in sorted[..i];
          assert !Subsumes(kept[k].range, sorted[i].range);
        }
        SubsumedGrows(kept, sorted[i]);
        kept := kept + [sorted[i]];
      }
    }
    assert sorted[..|sorted|] == sorted;
  }

  lemma SubsumedGrows(kept: seq<ClassifiedRange>, x: ClassifiedRange)
    ensures Subsumed(kept + [x], x.range)
    ensures forall r :: Subsumed(kept, r) ==> Subsumed(kept + [x], r)
  {
    assert (kept + [x])[|kept|] == x;
    forall r | Subsumed(kept, r) ensures Subsumed(kept + [x], r) {
      var k :| 0 <= k < |kept| && Subsumes(kept[k].range, r);
      assert (kept + [x])[k] == kept[k];
    }
  }

  /** Collapsing either list changes the level of no query. */
  lemma CollapseChangesNoAnswer(facts: RangeFacts, keptUnavailable: seq<ClassifiedRange>,
                                keptAvailable: seq<ClassifiedRange>, r: AddressRange)
    requires CollapseOf(facts.unavailable, keptUnavailable) && CollapseOf(facts.available, keptAvailable)
    ensures Level(facts, r) == Level(facts.(unavailable := keptUnavailable, available := keptAvailable), r)
  {
    CollapseKeepsConflicts(facts.unavailable, keptUnavailable, r);
    CollapseKeepsEstablished(facts.available, keptAvailable, r);
  }

  lemma CollapseKeepsConflicts(ranges: seq<ClassifiedRange>, kept: seq<ClassifiedRange>, r: AddressRange)
    requires CollapseOf(ranges, kept)
    ensures Conflicts(kept, r) <==> Conflicts(ranges, r)
  {
    if k :| 0 <= k < |ranges| && ranges[k].range.Intersects(r) {
      assert Subsumed(kept, ranges[k].range);
      var j :| 0 <= j < |kept| && Subsumes(kept[j].range, ranges[k].range);
      assert kept[j].range.Intersects(r);
    }
    if j :| 0 <= j < |kept| && kept[j].range.Intersects(r) {
      assert kept[j] in ranges;
    }
  }

  lemma CollapseKeepsEstablished(ranges: seq<ClassifiedRange>, kept: seq<ClassifiedRange>, r: AddressRange)
    requires CollapseOf(ranges, kept)
    ensures Established(kept, r) <==> Established(ranges, r)
  {
    if k :| 0 <= k < |ranges| && ranges[k].range.Contains(r) {
      assert Subsumed(kept, ranges[k].range);
      var j :| 0 <= j < |kept| && Subsumes(kept[j].range, ranges[k].range);
      assert kept[j].range.Contains(r);
    }
    if j :| 0 <= j < |kept| && kept[j].range.Contains(r) {
      assert kept[j] in ranges;
    }
  }

  /** The union of the ranges is untouched. */
  lemma CollapseKeepsUnion(ranges: seq<ClassifiedRange>, kept: seq<ClassifiedRange>, a: int)
    requires CollapseOf(ranges, kept)
    ensures (exists k :: 0 <= k < |kept| && kept[k].range.HasAddress(a)) <==>
            (exists k :: 0 <= k < |ranges| && ranges[k].range.HasAddress(a))
  {
    if k :| 0 <= k < |ranges| && ranges[k].range.HasAddress(a) {
      assert Subsumed(kept, ranges[k].range);
      var j :| 0 <= j < |kept| && Subsumes(kept[j].range, ranges[k].range);
      assert kept[j].range.HasAddress(a);
    }
    if j :| 0 <= j < |kept| && kept[j].range.HasAddress(a) {
      assert kept[j] in ranges;
    }
  }

  lemma CollapsesShareRanges(ranges: seq<ClassifiedRange>, a: seq<ClassifiedRange>, b: seq<ClassifiedRange>, i: nat)
    returns (j: nat)
    requires CollapseOf(ranges, a) && CollapseOf(ranges, b) && i < |a|
    ensures j < |b| && b[j].range == a[i].range
  {
    assert a[i] in ranges;
    j := Keeper(ranges, b, a[i]);
    assert b[j] in ranges;
    var k := Keeper(ranges, a, b[j]);
    SubsumesChains(a[k].range, b[j].range, a[i].range);
    assert k == i;
  }

  lemma Keeper(ranges: seq<ClassifiedRange>, kept: seq<ClassifiedRange>, x: ClassifiedRange) returns (j: nat)
    requires CollapseOf(ranges, kept) && x in ranges
    ensures j < |kept| && Subsumes(kept[j].range, x.range)
  {
    assert Subsumed(kept, x.range);
    j :| 0 <= j < |kept| && Subsumes(kept[j].range, x.range);
  }

  lemma SubsumesChains(a: AddressRange, b: AddressRange, c: AddressRange)
    requires Subsumes(a, b) && Subsumes(b, c)
    ensures Subsumes(a, c) && (a == c ==> b == c)
  {
  }

  /** Which ranges survive, and in which order, depends only on the ranges that went in. */
  lemma {:induction false} CollapseIsDetermined(ranges: seq<ClassifiedRange>, a: seq<ClassifiedRange>,
                                                b: seq<ClassifiedRange>, n: nat)
    requires CollapseOf(ranges, a) && CollapseOf(ranges, b) && n <= |a|
    ensures n <= |b| && forall k :: 0 <= k < n ==> a[k].range == b[k].range
  {
    if n == 0 {
    } else {
      CollapseIsDetermined(ranges, a, b, n - 1);
      var j := CollapsesShareRanges(ranges, a, b, n - 1);
      var i := CollapsesShareRanges(ranges, b, a, n - 1);
      AntichainIsStrict(a);
      AntichainIsStrict(b);
    }
  }

  lemma AntichainIsStrict(ranges: seq<ClassifiedRange>)
    requires Antichain(ranges)
    ensures forall i, j :: 0 <= i < j < |ranges| ==> ranges[i].range != ranges[j].range
  {
    forall i, j | 0 <= i < j < |ranges| ensures ranges[i].range != ranges[j].range {
      assert !Subsumes(ranges[i].range, ranges[j].range);
    }
  }

  lemma CollapsesHaveOneLength(ranges: seq<ClassifiedRange>, a: seq<ClassifiedRange>, b: seq<ClassifiedRange>)
    requires CollapseOf(ranges, a) && CollapseOf(ranges, b)
    ensures |a| == |b|
  {
    CollapseIsDetermined(ranges, a, b, |a|);
    CollapseIsDetermined(ranges, b, a, |b|);
  }

  /** Collapsing twice is collapsing once. */
  lemma CollapseIsIdempotent(ranges: seq<ClassifiedRange>, once: seq<ClassifiedRange>, twice: seq<ClassifiedRange>)
    requires CollapseOf(ranges, once) && CollapseOf(once, twice)
    ensures |twice| == |once| && forall k :: 0 <= k < |once| ==> twice[k].range == once[k].range
  {
    assert CollapseOf(once, once) by {
      forall x | x in once ensures Subsumed(once, x.range) {
        var k :| 0 <= k < |once| && once[k] == x;
        assert Subsumes(once[k].range, x.range);
      }
    }
    CollapseIsDetermined(once, once, twice, |once|);
    CollapsesHaveOneLength(once, once, twice);
  }
}
