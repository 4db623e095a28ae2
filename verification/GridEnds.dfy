/** For which arguments the contiguous walk's loop ends. */
module GridEnds {
  import opened Words
  import opened Multiples
  import opened ArenaTypes
  import opened GridWalk

  // -------------------------------------------------------------------------
  // Loops whose variable never wraps
  // -------------------------------------------------------------------------

  predicate OnGrid(g: Grid, b: int): (r: bool)
    requires g.window > 0
    ensures r ==> g.bottom <= b
  {
    g.bottom <= b && (b - g.bottom) % g.window == 0
  }

  /** A window the loop asks for, as long as it has not wrapped. */
  predicate Asks(g: Grid, b: u64)
    requires Usable(g)
  {
    OnGrid(g, b) && b % g.page == 0 && b + g.window <= g.top
  }

  predicate Jumps(g: Grid, b: u64) {
    g.probe.place(b, g.window) == Refused && g.probe.describe(b).covers
  }

  /** No addition wraps: neither at a base of the grid that is passed over, nor where a jump lands off the pages. */
  ghost predicate NeverWraps(g: Grid)
    requires Usable(g)
  {
    && (forall b: u64 :: OnGrid(g, b) && b <= g.top && b % g.page != 0 ==> b + g.window < U64_LIMIT)
    && (forall b: u64 :: Asks(g, b) && Jumps(g, b) && Resume(g, b) % g.page != 0 ==>
          Resume(g, b) + g.window < U64_LIMIT)
  }

  /** Where a loop that never wraps may stand. */
  predicate InStep(g: Grid, b: u64)
    requires Usable(g)
  {
    OnGrid(g, b) && (b % g.page == 0 || b + g.window < U64_LIMIT)
  }

  lemma GridStep(g: Grid, b: u64, c: u64)
    requires g.window > 0 && OnGrid(g, b) && OnGrid(g, c) && b < c
    ensures b + g.window <= c && OnGrid(g, b + g.window)
  {
    NextMultiple(b - g.bottom, c - g.bottom, g.window);
  }

  lemma NextOnGrid(g: Grid, b: u64)
    requires g.window > 0 && OnGrid(g, b)
    ensures OnGrid(g, b + g.window)
    ensures b + g.window < U64_LIMIT ==> OnGrid(g, Resume(g, b))
  {
    MultiplesAdd(b - g.bottom, g.window, 1, g.window);
    if b + g.window < U64_LIMIT {
      MultiplesAdd(b - g.bottom, g.window, Jump(g, b) + 1, g.window);
    }
  }

  lemma MovesOn(g: Grid, b: u64)
    requires Usable(g) && NeverWraps(g) && InStep(g, b) && !HaltsAt(g, b)
    ensures b + g.window <= g.top
    ensures NextBase(g, b) >= b + g.window && InStep(g, NextBase(g, b))
  {
    hide Resume, OnGrid;
    HaltsPastTop(g, b);
    NextOnGrid(g, b);
    if b % g.page == 0 {
      assert Asks(g, b);
    }
  }

  lemma BottomInStep(g: Grid)
    requires Usable(g) && NeverWraps(g) && g.bottom <= g.top
    ensures InStep(g, g.bottom)
  {
    BottomOnGrid(g);
  }

  lemma {:induction false} StopsWithoutWrapping(g: Grid, b: u64, n: nat)
    requires Usable(g) && NeverWraps(g) && InStep(g, b) && b + n >= g.top
    ensures Stops(g, b, n)
    decreases n
  {
    hide InStep, NextBase, NeverWraps;
    if !HaltsAt(g, b) {
      MovesOn(g, b);
      StopsWithoutWrapping(g, NextBase(g, b), n - 1);
    }
  }

  /** A loop whose variable never wraps ends. */
  lemma UnwrappedEnds(g: Grid)
    requires !Degenerate(g) && NeverWraps(g)
    ensures Ends(g)
  {
    BottomInStep(g);
    StopsWithoutWrapping(g, g.bottom, g.top - g.bottom);
  }

  /** Whole pages throughout: nothing is ever passed over, and the loop ends before it could wrap. */
  lemma AlignedNeverWraps(g: Grid)
    requires Aligned(g)
    ensures NeverWraps(g)
    ensures forall b: u64 :: OnGrid(g, b) ==> b % g.page == 0
  {
    hide Resume, OnGrid;
    forall b: u64 | OnGrid(g, b) ensures b % g.page == 0 {
      BottomOnGrid(g);
      AlignedGrid(g, g.bottom, b);
    }
    forall b: u64 | Asks(g, b) ensures Resume(g, b) % g.page == 0 {
      NextOnGrid(g, b);
      assert OnGrid(g, Resume(g, b));
    }
  }

  lemma BottomOnGrid(g: Grid)
    requires g.window > 0
    ensures OnGrid(g, g.bottom)
  {
  }

  /** With a window of whole pages, one aligned base makes all of its grid aligned. */
  lemma AlignedGrid(g: Grid, a: u64, b: u64)
    requires Usable(g) && g.window % g.page == 0 && OnGrid(g, a) && OnGrid(g, b) && a % g.page == 0
    ensures b % g.page == 0
  {
    var i, j := (a - g.bottom) / g.window, (b - g.bottom) / g.window;
    assert a == g.bottom + i * g.window && b == g.bottom + j * g.window;
    SameResidue(a, g.window, j - i, g.page);
    assert (j - i) * g.window == j * g.window - i * g.window;
  }

  lemma SameResidue(a: int, b: nat, k: int, m: nat)
    requires m > 0 && b % m == 0
    ensures (a + k * b) % m == a % m
  {
    var q, r := a / m, a % m;
    assert a == q * m + r && b == b / m * m;
    assert k * b == k * (b / m) * m;
    assert a + k * b == (q + k * (b / m)) * m + r;
    ResidueIs(a + k * b, q + k * (b / m), m, r);
  }

  lemma ResidueIs(a: int, q: int, m: nat, r: nat)
    requires r < m && a == q * m + r
    ensures a % m == r && a / m == q
  {
    var p := a / m;
    assert a == p * m + a % m;
    TimesGrows(p + 1, q, m);
    TimesGrows(q + 1, p, m);
    assert (p + 1) * m == p * m + m && (q + 1) * m == q * m + m;
  }

  /** Enough for any page and window: ceiling and reported regions end a window below the end of the addresses. */
  lemma RoomAboveNeverWraps(g: Grid)
    requires Usable(g) && g.top + g.window < U64_LIMIT
    requires forall b: u64 :: Asks(g, b) && Jumps(g, b) ==>
               WrapAdd(g.probe.describe(b).start, g.probe.describe(b).size) + g.window < U64_LIMIT
    ensures NeverWraps(g)
  {
    hide OnGrid, WrapAdd;
    forall b: u64 | Asks(g, b) && Jumps(g, b) ensures Resume(g, b) + g.window < U64_LIMIT {
      JumpStaysBelowEntryEnd(g, b);
      JumpLands(g, b);
    }
  }

  // -------------------------------------------------------------------------
  // A loop ends exactly when it never stands at one base twice
  // -------------------------------------------------------------------------

  /** Where the loop stands after `n` turns; it stays where it ends. */
  function After(g: Grid, b: u64, n: nat): u64
    requires Usable(g)
    decreases n
  {
    if n == 0 || HaltsAt(g, b) then b else After(g, NextBase(g, b), n - 1)
  }

  lemma {:induction false} StopsIsAfter(g: Grid, b: u64, n: nat)
    requires Usable(g)
    ensures Stops(g, b, n) <==> HaltsAt(g, After(g, b, n))
    decreases n
  {
    hide HaltsAt, NextBase;
    if n > 0 && !HaltsAt(g, b) {
      StopsIsAfter(g, NextBase(g, b), n - 1);
    }
  }

  lemma {:induction false} AfterComposes(g: Grid, b: u64, i: nat, j: nat)
    requires Usable(g)
    ensures After(g, b, i + j) == After(g, After(g, b, i), j)
    decreases i
  {
    hide HaltsAt, NextBase;
    if i > 0 && !HaltsAt(g, b) {
      AfterComposes(g, NextBase(g, b), i - 1, j);
    }
  }

  /** A base that is reached again is reached for ever. */
  lemma {:induction false} ReturningNeverStops(g: Grid, b: u64, period: nat, n: nat)
    requires Usable(g) && period > 0 && After(g, b, period) == b && !HaltsAt(g, b)
    ensures !Stops(g, b, n)
    decreases n
  {
    hide HaltsAt, NextBase;
    StopsIsAfter(g, b, n);
    if n < period {
      AfterComposes(g, b, n, period - n);
    } else {
      AfterComposes(g, b, period, n - period);
      ReturningNeverStops(g, b, period, n - period);
      StopsIsAfter(g, b, n - period);
    }
  }

  ghost predicate Repeats(g: Grid)
    requires Usable(g)
  {
    exists i: nat, j: nat {:trigger After(g, g.bottom, i), After(g, g.bottom, j)} ::
      i < j && After(g, g.bottom, i) == After(g, g.bottom, j) && !HaltsAt(g, After(g, g.bottom, i))
  }

  ghost function Below(n: nat): (s: set<int>)
    ensures forall x: int :: x in s <==> 0 <= x < n
    ensures |s| == n
  {
    if n == 0 then {} else Below(n - 1) + {n - 1}
  }

  lemma SubsetIsSmaller(a: set<int>, b: set<int>)
    requires a <= b
    ensures |a| <= |b|
  {
    assert b == a + (b - a);
  }

  ghost predicate StoodAt(g: Grid, n: nat, x: int)
    requires Usable(g)
  {
    exists i: nat :: i < n && After(g, g.bottom, i) == x
  }

  lemma NewBase(g: Grid, n: nat)
    requires Usable(g) && !Ends(g) && !Repeats(g)
    ensures !StoodAt(g, n, After(g, g.bottom, n))
  {
    hide HaltsAt, NextBase, After, Stops;
    if StoodAt(g, n, After(g, g.bottom, n)) {
      var i: nat :| i < n && After(g, g.bottom, i) == After(g, g.bottom, n);
      StopsIsAfter(g, g.bottom, i);
      assert false;
    }
  }

  /** The bases stood at in the first `n` turns of a loop that neither ends nor repeats. */
  lemma {:induction false} DistinctBases(g: Grid, n: nat, limit: nat) returns (bases: set<int>)
    requires Usable(g) && !Ends(g) && !Repeats(g) && limit == U64_LIMIT
    ensures |bases| == n && bases <= Below(limit)
    ensures forall x :: x in bases ==> StoodAt(g, n, x)
  {
    hide HaltsAt, NextBase, After, Stops, Ends, Repeats, Below;
    if n == 0 {
      bases := {};
    } else {
      var before := DistinctBases(g, n - 1, limit);
      var b := After(g, g.bottom, n - 1);
      NewBase(g, n - 1);
      bases := before + {b};
      assert StoodAt(g, n, b);
      forall x | x in before ensures StoodAt(g, n, x) {
        assert StoodAt(g, n - 1, x);
      }
    }
  }

  lemma TooManyBases(g: Grid, limit: nat)
    requires Usable(g) && limit == U64_LIMIT
    ensures Ends(g) || Repeats(g)
  {
    hide Ends, Repeats, Below;
    if !Ends(g) && !Repeats(g) {
      var bases := DistinctBases(g, limit + 1, limit);
      SubsetIsSmaller(bases, Below(limit));
      assert false;
    }
  }

  /** There are only so many bases: a loop that never ends stands at one of them twice, and conversely. */
  lemma EndsUnlessItRepeats(g: Grid)
    requires Usable(g)
    ensures Ends(g) <==> !Repeats(g)
  {
    hide HaltsAt, NextBase, After, Stops;
    if Repeats(g) {
      var i: nat, j: nat :| i < j && After(g, g.bottom, i) == After(g, g.bottom, j)
          && !HaltsAt(g, After(g, g.bottom, i));
      RepeatingNeverEnds(g, i, j);
    } else if !Ends(g) {
      TooManyBases(g, U64_LIMIT);
    }
  }

  lemma RepeatingNeverEnds(g: Grid, i: nat, j: nat)
    requires Usable(g) && i < j && After(g, g.bottom, i) == After(g, g.bottom, j) && !HaltsAt(g, After(g, g.bottom, i))
    ensures !Ends(g)
  {
    hide HaltsAt, NextBase, After, Stops;
    var b := After(g, g.bottom, i);
    AfterComposes(g, g.bottom, i, j - i);
    forall n: nat ensures !Stops(g, g.bottom, n) {
      StopsIsAfter(g, g.bottom, n);
      if n < i && HaltsAt(g, After(g, g.bottom, n)) {
        AfterComposes(g, g.bottom, n, i - n);
        EndedStays(g, After(g, g.bottom, n), i - n);
      } else if n >= i {
        AfterComposes(g, g.bottom, i, n - i);
        ReturningNeverStops(g, b, j - i, n - i);
        StopsIsAfter(g, b, n - i);
      }
    }
  }

  lemma EndedStays(g: Grid, b: u64, n: nat)
    requires Usable(g) && HaltsAt(g, b)
    ensures After(g, b, n) == b
  {
  }
}
