/** Bisecting for the end of the usable address space on Linux. */
module Bisection {
  import opened Words
  import opened Multiples

  /** Whether one page can be mapped exactly at an address. */
  type Mappable = u64 -> bool

  const FIRST_BIT: nat := 20
  const LAST_BIT: nat := 62
  const FIRST_POWER: u64 := 0x10_0000
  const BEYOND_LAST_POWER: u64 := 0x8000_0000_0000_0000

  /** The powers of two that are tried: whole megabytes that fit a 64-bit word. */
  lemma {:induction false} PowersFit(b: nat, page: u64)
    requires FIRST_BIT <= b <= LAST_BIT + 1 && page > 0 && FIRST_POWER % page == 0
    ensures FIRST_POWER <= Pow2(b) <= BEYOND_LAST_POWER && Pow2(b) % page == 0
    ensures b <= LAST_BIT ==> 2 * Pow2(b) <= BEYOND_LAST_POWER
    ensures b == LAST_BIT + 1 ==> Pow2(b) == BEYOND_LAST_POWER
  {
    PowerAt20();
    PowerAt63();
    PowersGrow(FIRST_BIT, b);
    PowersGrow(b, LAST_BIT + 1);
    if b <= LAST_BIT {
      PowersGrow(b + 1, LAST_BIT + 1);
    }
    PowersDivide(b, page);
  }

  lemma PowerAt20()
    ensures Pow2(FIRST_BIT) == FIRST_POWER && Pow2(3) == 8
  {
    assert Pow2(2) == 4 && Pow2(3) == 8 && Pow2(5) == 32;
    PowersMultiply(5, 5);
    PowersMultiply(10, 10);
  }

  lemma PowerAt63()
    ensures Pow2(LAST_BIT + 1) == BEYOND_LAST_POWER
  {
    hide Pow2;
    PowerAt20();
    PowersMultiply(20, 20);
    PowersMultiply(40, 20);
    PowersMultiply(60, 3);
  }

  lemma {:induction false} PowersGrow(a: nat, b: nat)
    requires a <= b
    ensures Pow2(a) <= Pow2(b)
    decreases b - a
  {
    if a < b {
      PowersGrow(a, b - 1);
    }
  }

  lemma {:induction false} PowersDivide(b: nat, page: u64)
    requires FIRST_BIT <= b && page > 0 && FIRST_POWER % page == 0
    ensures Pow2(b) % page == 0
  {
    if b == FIRST_BIT {
      PowerAt20();
    } else {
      PowersDivide(b - 1, page);
      MultiplesAdd(Pow2(b - 1), Pow2(b - 1), 1, page);
    }
  }

  /** The highest power of two from bit 20 up to, not including, `bits` that maps; zero when none does. */
  ghost function HighestPower(can: Mappable, bits: nat): (r: u64)
    requires FIRST_BIT <= bits <= LAST_BIT + 1
    ensures r != 0 ==> can(r)
    ensures r != 0 ==> exists b :: FIRST_BIT <= b < bits && r == Pow2(b)
  {
    if bits == FIRST_BIT then 0
    else
      PowersFit(bits - 1, 1);
      if can(Pow2(bits - 1)) then Pow2(bits - 1) else HighestPower(can, bits - 1)
  }

  lemma HighestPowerSteps(can: Mappable, bit: nat)
    requires FIRST_BIT <= bit <= LAST_BIT && Pow2(bit) < U64_LIMIT
    ensures HighestPower(can, FIRST_BIT) == 0
    ensures HighestPower(can, bit + 1) == if can(Pow2(bit)) then Pow2(bit) else HighestPower(can, bit)
  {
    hide Pow2;
  }

  lemma HighestPowerIsWhole(can: Mappable, page: u64)
    requires page > 0 && FIRST_POWER % page == 0
    ensures var low := HighestPower(can, LAST_BIT + 1);
      && low % page == 0 && 2 * low % page == 0 && 2 * low <= BEYOND_LAST_POWER
      && (low != 0 ==> low >= FIRST_POWER)
  {
    hide Pow2, HighestPower;
    var low := HighestPower(can, LAST_BIT + 1);
    if low != 0 {
      var b :| FIRST_BIT <= b < LAST_BIT + 1 && low == Pow2(b);
      PowersFit(b, page);
      MultiplesAdd(low, low, 1, page);
    }
  }

  /** The midpoint, rounded down to a page, lies strictly inside a gap of more than one page. */
  lemma MiddleIsBetween(low: nat, high: nat, page: nat)
    requires page > 0 && low % page == 0 && high % page == 0 && high - low > page
    ensures var mid := low + (high - low) / 2 / page * page;
      low < mid < high && mid % page == 0
  {
    NextMultiple(low, high, page);
    NextMultiple(low + page, high, page);
    var half := (high - low) / 2;
    var steps := half / page;
    assert half == steps * page + half % page;
    MultiplesAdd(low, page, steps, page);
    if steps == 0 {
      assert false;
    }
    TimesGrows(1, steps, page);
  }

  /** Above the first megabyte the mappable pages are the ones below some address. */
  ghost predicate DownwardClosed(can: Mappable, page: u64)
    requires page > 0
  {
    forall a: u64, b: u64 :: FIRST_POWER <= a < b && a % page == 0 && b % page == 0 && can(b) ==> can(a)
  }

  /**
   * A place between the power and its double where mapping stops, less than two pages wide, steps
   * of a page above `from`.
   */
  ghost predicate Edge(can: Mappable, page: u64, from: u64, e: u64, beyond: u64)
    requires page > 0
  {
    && from <= e < beyond <= 2 * from && beyond - e < 2 * page && (e - from) % page == 0
    && can(e) && !can(beyond)
  }

  /** What the bisection returns above a lowest address that maps: one page past the edge it found. */
  ghost predicate FromEdge(can: Mappable, page: u64, from: u64, r: u64)
    requires page > 0
  {
    exists e: u64, beyond: u64 :: Edge(can, page, from, e, beyond) && r == WrapAdd(e, page)
  }

  /** With the midpoint no higher than the lower end, less than two pages are left. */
  lemma NoMiddle(gap: nat, page: nat)
    requires page > 0 && gap / 2 / page * page == 0
    ensures gap < 2 * page
  {
    var half := gap / 2;
    assert half == half / page * page + half % page;
  }

  lemma MiddleIsStep(low: nat, high: nat, from: nat, page: nat)
    requires page > 0 && from <= low < high && (low - from) % page == 0
    ensures var mid := low + (high - low) / 2 / page * page;
      low <= mid < high && (mid - from) % page == 0
  {
    var half := (high - low) / 2;
    assert half == half / page * page + half % page;
    TimesGrows(0, half / page, page);
    MultiplesAdd(low - from, page, half / page, page);
  }

  /** With whole pages throughout there is exactly one page between the two. */
  lemma EdgeOfPages(can: Mappable, page: u64, from: u64, e: u64, beyond: u64)
    requires page > 0 && Edge(can, page, from, e, beyond) && from % page == 0 && beyond % page == 0
    ensures e % page == 0 && beyond == e + page
  {
    var k := (e - from) / page;
    assert e - from == k * page;
    MultiplesAdd(from, page, k, page);
    NextMultiple(e, beyond, page);
    if e + page < beyond {
      NextMultiple(e + page, beyond, page);
      assert false;
    }
  }

  method FindMaxUserAddress(page: u64, can: Mappable) returns (r: u64)
    requires page > 0
    ensures var low := HighestPower(can, LAST_BIT + 1);
      && 2 * low < U64_LIMIT
      && if low == 0 || can(2 * low) then r == 0 else FromEdge(can, page, low, r)
    ensures FIRST_POWER % page == 0 ==>
              var low := HighestPower(can, LAST_BIT + 1);
              && (r == 0 <==> low == 0 || can(2 * low))
              && (r != 0 ==> low < r <= 2 * low && r % page == 0 && r >= page && can(r - page) && !can(r))
  {
    hide Pow2, HighestPower, WrapAdd;
    var low: u64 := 0;
    for bit := FIRST_BIT to LAST_BIT + 1
      invariant low == HighestPower(can, bit)
    {
      PowersFit(bit, 1);
      HighestPowerSteps(can, bit);
      var candidate: u64 := Pow2(bit);
      if can(candidate) {
        low := candidate;
      }
    }
    HighestPowerIsWhole(can, 1);
    if low == 0 {
      return 0;
    }
    if can(low * 2) {
      return 0;
    }
    var high: u64 := low * 2;
    ghost var from := low;
    ghost var whole := FIRST_POWER % page == 0;
    if whole {
      HighestPowerIsWhole(can, page);
    }
    while high - low > page
      invariant from <= low < high <= 2 * from < U64_LIMIT
      invariant (low - from) % page == 0 && (whole ==> low % page == 0 && high % page == 0)
      invariant can(low) && !can(high)
      decreases high - low
    {
      MiddleIsStep(low, high, from, page);
      if whole {
        MiddleIsBetween(low, high, page);
      }
      var mid: u64 := low + (high - low) / 2 / page * page;
      if mid == low {
        NoMiddle(high - low, page);
        break;
      }
      if can(mid) {
        low := mid;
      } else {
        high := mid;
      }
    }
    assert Edge(can, page, from, low, high);
    if whole {
      EdgeOfPages(can, page, from, low, high);
      OnePageUp(low, page);
    }
    return WrapAdd(low, page);
  }

  lemma OnePageUp(low: u64, page: u64)
    requires low + page < U64_LIMIT
    ensures WrapAdd(low, page) == low + page
  {
  }

  /**
   * Where the mappable pages above the first megabyte are the ones below some
   * address, the result is exactly that address, and zero means that the
   * first megabyte itself does not map or that the map runs past bit 63.
   */
  lemma ResultIsExactEnd(can: Mappable, page: u64, r: u64)
    requires page > 0 && FIRST_POWER % page == 0 && DownwardClosed(can, page)
    requires var low := HighestPower(can, LAST_BIT + 1);
      2 * low < U64_LIMIT && (r == 0 <==> low == 0 || can(2 * low)) && (r != 0 ==> low < r <= 2 * low)
    requires r != 0 ==> r % page == 0 && r >= page && can(r - page) && !can(r)
    ensures r != 0 ==> forall a: u64 :: a >= FIRST_POWER && a % page == 0 ==> (can(a) <==> a < r)
    ensures r == 0 <==> !can(FIRST_POWER) || can(BEYOND_LAST_POWER)
  {
    hide HighestPower, DownwardClosed;
    HighestPowerIsWhole(can, page);
    ZeroMeansOutOfRange(can, page);
    if r != 0 {
      forall a: u64 | a >= FIRST_POWER && a % page == 0 ensures can(a) <==> a < r {
        EdgeIsExact(can, page, r, a);
      }
    }
  }

  lemma EdgeIsExact(can: Mappable, page: u64, r: u64, a: u64)
    requires page > 0 && DownwardClosed(can, page) && r >= FIRST_POWER
    requires r % page == 0 && r >= page && can(r - page) && !can(r)
    requires a >= FIRST_POWER && a % page == 0
    ensures can(a) <==> a < r
  {
    hide DownwardClosed;
    if a < r {
      NextMultiple(a, r, page);
      MultiplesSubtract(r, page);
      CloseDown(can, page, a, r - page);
    } else {
      CloseDown(can, page, r, a);
    }
  }

  lemma CloseDown(can: Mappable, page: u64, a: u64, b: u64)
    requires page > 0 && DownwardClosed(can, page)
    requires FIRST_POWER <= a <= b && a % page == 0 && b % page == 0
    ensures can(b) ==> can(a)
  {
  }

  lemma ZeroMeansOutOfRange(can: Mappable, page: u64)
    requires page > 0 && FIRST_POWER % page == 0 && DownwardClosed(can, page)
    ensures var low := HighestPower(can, LAST_BIT + 1);
      2 * low < U64_LIMIT && (low == 0 || can(2 * low) <==> !can(FIRST_POWER) || can(BEYOND_LAST_POWER))
  {
    hide HighestPower, DownwardClosed, Pow2;
    var low := HighestPower(can, LAST_BIT + 1);
    HighestPowerIsWhole(can, page);
    PowersFit(LAST_BIT + 1, page);
    if low == 0 {
      PowerAt20();
      HighestPowerIsHighest(can, LAST_BIT + 1, FIRST_BIT);
    } else {
      CloseDown(can, page, FIRST_POWER, low);
      CloseDown(can, page, 2 * low, BEYOND_LAST_POWER);
      var b :| FIRST_BIT <= b < LAST_BIT + 1 && low == Pow2(b);
      PowersFit(b + 1, page);
      assert Pow2(b + 1) == 2 * low by { DoublePower(b); }
      if b < LAST_BIT {
        HighestPowerIsHighest(can, LAST_BIT + 1, b + 1);
      }
    }
  }

  lemma DoublePower(b: nat)
    ensures Pow2(b + 1) == 2 * Pow2(b)
  {
  }

  lemma {:induction false} HighestPowerIsHighest(can: Mappable, bits: nat, b: nat)
    requires FIRST_BIT <= b < bits <= LAST_BIT + 1
    ensures Pow2(b) < U64_LIMIT
    ensures can(Pow2(b)) ==> Pow2(b) <= HighestPower(can, bits)
    decreases bits
  {
    hide Pow2, HighestPower;
    PowersFit(b, 1);
    PowersFit(bits - 1, 1);
    PowersGrow(b, bits - 1);
    HighestPowerSteps(can, bits - 1);
    if b < bits - 1 {
      HighestPowerIsHighest(can, bits - 1, b);
    }
  }
}
