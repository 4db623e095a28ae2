/** Deciding whose a Windows placement refusal is, from what the region query reports. */
module WindowsRegions {
  import opened Words
  import opened Wrappers
  import opened ArenaTypes

  datatype MemRegion = MemRegion(base: u64, size: u64, free: bool)

  /** `VirtualQuery`: nothing when the query fails. */
  type RegionQuery = u64 -> Option<MemRegion>

  const MAX_REGIONS_PER_WINDOW := 4096

  // -------------------------------------------------------------------------
  // A memory map the query answers from
  // -------------------------------------------------------------------------

  function End(r: MemRegion): int {
    r.base + r.size
  }

  predicate InRegion(r: MemRegion, a: int) {
    r.base <= a < End(r)
  }

  /** Non-empty regions, each starting where the one before ends. */
  ghost predicate Tiling(regions: seq<MemRegion>) {
    && (forall k :: 0 <= k < |regions| ==> regions[k].size > 0 && End(regions[k]) < U64_LIMIT)
    && (forall k :: 0 < k < |regions| ==> regions[k].base == End(regions[k - 1]))
  }

  /** The query reports the region an address lies in, and fails past the last one. */
  ghost predicate Answers(query: RegionQuery, regions: seq<MemRegion>) {
    && Tiling(regions)
    && (forall a: u64, k :: 0 <= k < |regions| && InRegion(regions[k], a) ==> query(a) == Some(regions[k]))
    && (regions != [] ==> query(End(regions[|regions| - 1])) == None)
  }

  lemma {:induction false} TilingIsOrdered(regions: seq<MemRegion>, j: nat, k: nat)
    requires Tiling(regions) && j < k < |regions|
    ensures End(regions[j]) <= regions[k].base
    decreases k - j
  {
    if j + 1 == k {
    } else {
      TilingIsOrdered(regions, j, k - 1);
    }
  }

  /** The first non-free region from `k` on that begins before `end`, within `steps` regions. */
  ghost function FirstOccupied(regions: seq<MemRegion>, k: nat, end: int, steps: nat): (r: Option<nat>)
    ensures r.Some? ==> k <= r.value < |regions|
    decreases steps
  {
    if k >= |regions| || steps == 0 || regions[k].base >= end then None
    else if !regions[k].free then Some(k)
    else FirstOccupied(regions, k + 1, end, steps - 1)
  }

  /** The last region of the non-free run that starts at `k`, looking at most `steps` regions ahead. */
  ghost function RunEnd(regions: seq<MemRegion>, k: nat, steps: nat): (r: nat)
    requires k < |regions|
    ensures k <= r < |regions|
    decreases steps
  {
    if steps == 0 || k + 1 >= |regions| || regions[k + 1].free then k else RunEnd(regions, k + 1, steps - 1)
  }

  /** What the query says at a region's own addresses and at its end. */
  lemma AnswersAt(query: RegionQuery, regions: seq<MemRegion>, k: nat)
    requires Answers(query, regions) && k < |regions|
    ensures regions[k].size > 0 && End(regions[k]) < U64_LIMIT
    ensures forall a: u64 :: InRegion(regions[k], a) ==> query(a) == Some(regions[k])
    ensures query(End(regions[k])) == if k + 1 < |regions| then Some(regions[k + 1]) else None
    ensures k + 1 < |regions| ==> regions[k + 1].base == End(regions[k]) < End(regions[k + 1]) < U64_LIMIT
  {
    if k + 1 < |regions| {
      assert InRegion(regions[k + 1], regions[k + 1].base);
    }
  }

  lemma RunEndSteps(regions: seq<MemRegion>, k: nat, steps: nat)
    requires k < |regions|
    ensures steps == 0 || k + 1 >= |regions| || regions[k + 1].free ==> RunEnd(regions, k, steps) == k
    ensures steps > 0 && k + 1 < |regions| && !regions[k + 1].free ==>
              RunEnd(regions, k, steps) == RunEnd(regions, k + 1, steps - 1)
  {
  }

  lemma FirstOccupiedSteps(regions: seq<MemRegion>, k: nat, end: int, steps: nat)
    ensures k >= |regions| || steps == 0 || regions[k].base >= end ==> FirstOccupied(regions, k, end, steps) == None
    ensures k < |regions| && steps > 0 && regions[k].base < end ==>
              FirstOccupied(regions, k, end, steps) ==
              if !regions[k].free then Some(k) else FirstOccupied(regions, k + 1, end, steps - 1)
  {
  }

  // -------------------------------------------------------------------------
  // The two bounded loops
  // -------------------------------------------------------------------------

  /** Follows the run of non-free regions that ends, so far, at `regionEnd`. */
  method FollowRun(regionEnd: u64, query: RegionQuery, ghost regions: seq<MemRegion>, ghost f: nat)
    returns (end: u64)
    ensures end >= regionEnd
    ensures Answers(query, regions) && f < |regions| && End(regions[f]) == regionEnd ==>
              end == End(regions[RunEnd(regions, f, MAX_REGIONS_PER_WINDOW)])
  {
    hide Answers, RunEnd;
    ghost var known := Answers(query, regions) && f < |regions| && End(regions[f]) == regionEnd;
    ghost var last: nat := f;
    end := regionEnd;
    var more := 0;
    while more < MAX_REGIONS_PER_WINDOW
      invariant 0 <= more <= MAX_REGIONS_PER_WINDOW && end >= regionEnd
      invariant known ==> last < |regions| && end == End(regions[last])
      invariant known ==>
                  RunEnd(regions, last, MAX_REGIONS_PER_WINDOW - more) == RunEnd(regions, f, MAX_REGIONS_PER_WINDOW)
    {
      if known {
        AnswersAt(query, regions, last);
        RunEndSteps(regions, last, MAX_REGIONS_PER_WINDOW - more);
      }
      match query(end)
      case None =>
        break;
      case Some(next) =>
        var nextEnd := WrapAdd(next.base, next.size);
        if next.free || next.size == 0 || nextEnd <= end {
          break;
        }
        end := nextEnd;
        last := last + 1;
        more := more + 1;
    }
    if known {
      RunEndSteps(regions, last, MAX_REGIONS_PER_WINDOW - more);
    }
  }

  lemma WrapsTo(start: u64, end: u64)
    ensures WrapAdd(start, WrapSub(end, start)) == end
  {
  }

  function SystemRefusalText(refusal: string): string {
    "nothing of this process is in the way and the refusal (" + refusal + ") is the system's"
  }

  function OwnRegionText(refusal: string): string {
    "a region of this process covers it, so the refusal (" + refusal + ") says nothing about the host"
  }

  /** The query named, at an address of the window, the region in use that the entry starts with and reaches past. */
  ghost predicate Reported(query: RegionQuery, base: u64, end: int, entry: Entry) {
    exists a: u64 :: base <= a < end && query(a).Some?
      && !query(a).value.free && query(a).value.base == entry.start && a < WrapAdd(entry.start, entry.size)
  }

  method ClassifyWindow(base: u64, window: u64, query: RegionQuery, refusal: string,
                        ghost regions: seq<MemRegion>, ghost i: nat)
    returns (entry: Entry)
    ensures window == 0 || base + window >= U64_LIMIT ==> !entry.covers
    ensures entry.covers ==> Reported(query, base, base + window, entry)
    ensures window > 0 && base + window < U64_LIMIT && Answers(query, regions) && i < |regions|
            && InRegion(regions[i], base) ==>
              match FirstOccupied(regions, i, base + window, MAX_REGIONS_PER_WINDOW)
              case None => !entry.covers
              case Some(f) =>
                && entry.covers && entry.start == regions[f].base
                && WrapAdd(entry.start, entry.size) == End(regions[RunEnd(regions, f, MAX_REGIONS_PER_WINDOW)])
  {
    hide Answers, RunEnd, FirstOccupied, WrapAdd, WrapSub, SystemRefusalText, OwnRegionText;
    entry := Entry(false, 0, 0, SystemRefusalText(refusal));
    if window == 0 || base + window >= U64_LIMIT {
      return;
    }
    var windowEnd := base + window;
    ghost var known := Answers(query, regions) && i < |regions| && InRegion(regions[i], base);
    ghost var k: nat := i;
    var at := base;
    var steps := 0;
    while steps < MAX_REGIONS_PER_WINDOW && at < windowEnd
      invariant base <= at < U64_LIMIT && 0 <= steps <= MAX_REGIONS_PER_WINDOW
      invariant known ==> k <= |regions|
      invariant known && k < |regions| ==> InRegion(regions[k], at) && (regions[k].base < windowEnd <==> at < windowEnd)
      invariant known && k == |regions| ==> at == End(regions[|regions| - 1])
      invariant known ==> FirstOccupied(regions, k, windowEnd, MAX_REGIONS_PER_WINDOW - steps) ==
                          FirstOccupied(regions, i, windowEnd, MAX_REGIONS_PER_WINDOW)
    {
      if known {
        FirstOccupiedSteps(regions, k, windowEnd, MAX_REGIONS_PER_WINDOW - steps);
        AnswersAt(query, regions, if k < |regions| then k else |regions| - 1);
      }
      match query(at)
      case None =>
        break;
      case Some(region) =>
        var regionEnd := WrapAdd(region.base, region.size);
        if region.size == 0 || regionEnd <= at {
          break;
        }
        if !region.free {
          var end := FollowRun(regionEnd, query, regions, k);
          entry := Entry(true, region.base, WrapSub(end, region.base), OwnRegionText(refusal));
          WrapsTo(region.base, end);
          assert query(at).Some? && at < WrapAdd(entry.start, entry.size);
          return;
        }
        at := regionEnd;
        k := k + 1;
        steps := steps + 1;
    }
    if known {
      FirstOccupiedSteps(regions, k, windowEnd, MAX_REGIONS_PER_WINDOW - steps);
    }
  }

  // -------------------------------------------------------------------------
  // What the classification means on a tiled map
  // -------------------------------------------------------------------------

  /** A region of the process meets the window. */
  predicate Occupies(r: MemRegion, base: u64, end: int) {
    !r.free && r.base < end && base < End(r)
  }

  lemma {:induction false} FirstOccupiedIsFirst(regions: seq<MemRegion>, k: nat, base: u64, end: int, steps: nat)
    requires Tiling(regions)
    requires k < |regions| ==> base < End(regions[k])
    ensures var f := FirstOccupied(regions, k, end, steps);
      && (f.Some? ==> Occupies(regions[f.value], base, end))
      && (forall j :: k <= j < |regions| && j < k + steps && Occupies(regions[j], base, end) ==>
         f.Some? && f.value <= j)
    decreases steps
  {
    if k < |regions| && steps > 0 {
      if regions[k].base >= end {
        forall j | k < j < |regions| ensures regions[j].base >= end {
          TilingIsOrdered(regions, k, j);
        }
      } else if regions[k].free {
        FirstOccupiedIsFirst(regions, k + 1, base, end, steps - 1);
      }
    }
  }

  lemma {:induction false} RunIsMaximal(regions: seq<MemRegion>, k: nat, steps: nat)
    requires k < |regions|
    ensures var r := RunEnd(regions, k, steps);
      && (forall j :: k < j <= r ==> !regions[j].free)
      && r <= k + steps
      && (r < k + steps && r + 1 < |regions| ==> regions[r + 1].free)
    decreases steps
  {
    if !(steps == 0 || k + 1 >= |regions| || regions[k + 1].free) {
      RunIsMaximal(regions, k + 1, steps - 1);
    }
  }

  /**
   * On a map whose window holds fewer regions than the cap, a window is
   * covered exactly when a region of the process meets it; the extent then
   * runs from the first such region over every non-free region that follows
   * without a gap, and stops only at a free one, at the end of the map, or at
   * the cap on the run.
   */
  lemma ClassificationIsExact(regions: seq<MemRegion>, i: nat, base: u64, end: int)
    requires Tiling(regions) && i < |regions| && InRegion(regions[i], base)
    requires i + MAX_REGIONS_PER_WINDOW < |regions| ==> regions[i + MAX_REGIONS_PER_WINDOW].base >= end
    ensures var first := FirstOccupied(regions, i, end, MAX_REGIONS_PER_WINDOW);
      && (first.Some? <==> exists k :: 0 <= k < |regions| && Occupies(regions[k], base, end))
      && (first.Some? ==>
            var f, r := first.value, RunEnd(regions, first.value, MAX_REGIONS_PER_WINDOW);
            && Occupies(regions[f], base, end)
            && (forall k :: 0 <= k < f ==> !Occupies(regions[k], base, end))
            && (forall k :: f <= k <= r ==> !regions[k].free)
            && (r + 1 == |regions| || r == f + MAX_REGIONS_PER_WINDOW || regions[r + 1].free))
  {
    hide RunEnd, FirstOccupied, Tiling;
    var first := FirstOccupied(regions, i, end, MAX_REGIONS_PER_WINDOW);
    FirstOccupiedIsFirst(regions, i, base, end, MAX_REGIONS_PER_WINDOW);
    forall k | 0 <= k < |regions| && !(i <= k < i + MAX_REGIONS_PER_WINDOW) ensures !Occupies(regions[k], base, end) {
      OutsideTheCap(regions, i, k, base, end);
    }
    if first.Some? {
      RunIsMaximal(regions, first.value, MAX_REGIONS_PER_WINDOW);
    }
  }

  lemma OutsideTheCap(regions: seq<MemRegion>, i: nat, k: nat, base: u64, end: int)
    requires Tiling(regions) && i < |regions| && InRegion(regions[i], base) && k < |regions|
    requires i + MAX_REGIONS_PER_WINDOW < |regions| ==> regions[i + MAX_REGIONS_PER_WINDOW].base >= end
    requires !(i <= k < i + MAX_REGIONS_PER_WINDOW)
    ensures !Occupies(regions[k], base, end)
  {
    if k < i {
      TilingIsOrdered(regions, k, i);
    } else if k > i + MAX_REGIONS_PER_WINDOW {
      TilingIsOrdered(regions, i + MAX_REGIONS_PER_WINDOW, k);
    }
  }
}
