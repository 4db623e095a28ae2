/** Exactly when the contiguous walk's record is independent of the prober's own layout. */
module GridLayout {
  import opened Words
  import opened Multiples
  import opened ArenaTypes
  import opened GridWalk
  import opened GridEnds
  import opened GridClaims

  // -------------------------------------------------------------------------
  // The last whole window
  // -------------------------------------------------------------------------

  function LastEnd(g: Grid): (e: u64)
    requires !Degenerate(g)
    ensures g.bottom + g.window <= e <= g.top < e + g.window && (e - g.bottom) % g.window == 0
  {
    var k := (g.top - g.bottom) / g.window;
    assert g.top - g.bottom == k * g.window + (g.top - g.bottom) % g.window;
    TimesGrows(1, k, g.window);
    QuotientOfProduct(k, g.window);
    g.bottom + k * g.window
  }

  lemma LastEndOnGrid(g: Grid)
    requires !Degenerate(g)
    ensures OnGrid(g, LastEnd(g)) && OnGrid(g, LastEnd(g) - g.window)
  {
    MultiplesSubtract(LastEnd(g) - g.bottom, g.window);
  }

  /** There are only whole windows, or no further window would end below 2^64. */
  predicate NoTail(g: Grid)
    requires !Degenerate(g)
  {
    LastEnd(g) == g.top || LastEnd(g) + g.window >= U64_LIMIT
  }

  lemma NoTailStaysInside(g: Grid)
    requires !Degenerate(g) && NoTail(g)
    ensures StaysInside(g)
  {
    hide OnGrid, Resume, LastEnd;
    LastEndOnGrid(g);
    forall b: u64 | Asks(g, b) && Jumps(g, b) && LastEnd(g) != g.top ensures Resume(g, b) <= g.top {
      NextOnGrid(g, b);
      if LastEnd(g) < Resume(g, b) {
        GridStep(g, LastEnd(g), Resume(g, b));
      }
    }
  }

  // -------------------------------------------------------------------------
  // A walk that is placed everywhere before its last window
  // -------------------------------------------------------------------------

  ghost predicate PlacedBefore(g: Grid, c: u64)
    requires g.window > 0
  {
    forall b: u64 :: OnGrid(g, b) && b < c ==> g.probe.place(b, g.window) == Placed
  }

  /** How far a run reaches that ends with the answered window at `c`. */
  function Reach(g: Grid, c: u64): u64
    requires Usable(g) && Asks(g, c)
  {
    if Jumps(g, c) then (if Resume(g, c) < g.top then Resume(g, c) else g.top) else c + g.window
  }

  lemma LastAsk(g: Grid, s: State)
    requires Usable(g) && Asks(g, s.base) && Answered(g, s.base) && s.base + 2 * g.window > g.top
    requires s.available == [] && s.run == if s.base == g.bottom then Closed else Open(g.bottom, s.base)
    ensures var next := Ask(g, s);
      && next.base + g.window > g.top
      && Close(g, next).available == [Measured(g.bottom, Reach(g, s.base), RunNote(g))]
  {
    hide Resume, RunNote, OnGrid;
  }

  lemma {:induction false} RunReaches(g: Grid, s: State, n: nat, c: u64)
    requires Aligned(g) && Asks(g, c) && PlacedBefore(g, c) && Answered(g, c) && c + 2 * g.window > g.top
    requires OnGrid(g, s.base) && s.base <= c && Stops(g, s.base, n)
    requires s.available == [] && s.run == if s.base == g.bottom then Closed else Open(g.bottom, s.base)
    ensures Finish(g, s, n).available == [Measured(g.bottom, Reach(g, c), RunNote(g))]
    decreases n
  {
    hide OnGrid, Resume, Close, Stops, Finish, Answered, RunNote, NeverWraps, Reach;
    AlignedNeverWraps(g);
    HaltsPastTop(g, s.base);
    FinishTurns(g, s, n);
    var next := Ask(g, s);
    if s.base < c {
      GridStep(g, s.base, c);
      RunReaches(g, next, n - 1, c);
    } else {
      LastAsk(g, s);
      NextAligned(g, c);
      HaltsPastTop(g, next.base);
      FinishTurns(g, next, n - 1);
    }
  }

  lemma NextAligned(g: Grid, b: u64)
    requires Aligned(g) && Asks(g, b)
    ensures NextBase(g, b) % g.page == 0
  {
    hide OnGrid, Resume;
    AlignedNeverWraps(g);
    NextOnGrid(g, b);
  }

  // -------------------------------------------------------------------------
  // Two probes, one arena
  // -------------------------------------------------------------------------

  /** The two platforms refuse the same windows, and no jump of either passes a refused one. */
  ghost predicate Comparable(g: Grid, p: Probe, q: Probe)
    requires g.window > 0
  {
    && JumpsAreClear(g.(probe := p)) && JumpsAreClear(g.(probe := q))
    && SameRefusals(g.(probe := p), g.(probe := q))
  }

  ghost predicate SameRecord(g: Grid, p: Probe, q: Probe)
    requires Usable(g)
  {
    forall n: nat, m: nat {:trigger Stops(g.(probe := p), g.bottom, n), Stops(g.(probe := q), g.bottom, m)} ::
      Stops(g.(probe := p), g.bottom, n) && Stops(g.(probe := q), g.bottom, m) ==>
        var r, t := Finish(g.(probe := p), Start(g), n), Finish(g.(probe := q), Start(g), m);
        r.available == t.available && r.unavailable == t.unavailable
  }

  /**
   * For an arena of whole pages: any two platforms that refuse the same
   * windows leave the same record exactly when the arena is a whole number of
   * windows, or too close to 2^64 for a jump to pass its last one.
   */
  lemma LayoutIndependentExactly(g: Grid)
    requires Aligned(g) && !Degenerate(g)
    ensures NoTail(g) <==> forall p: Probe, q: Probe :: Comparable(g, p, q) ==> SameRecord(g, p, q)
  {
    hide NoTail, Comparable, SameRecord;
    if NoTail(g) {
      forall p: Probe, q: Probe | Comparable(g, p, q) ensures SameRecord(g, p, q) {
        NoTailSuffices(g, p, q);
      }
    } else {
      TailIsNoticed(g);
    }
  }

  lemma NoTailSuffices(g: Grid, p: Probe, q: Probe)
    requires Aligned(g) && !Degenerate(g) && NoTail(g) && Comparable(g, p, q)
    ensures SameRecord(g, p, q)
  {
    hide Finish, Stops, JumpsAreClear, SameRefusals, StaysInside, LastEnd;
    var one, two := g.(probe := p), g.(probe := q);
    SameTail(g, p);
    SameTail(g, q);
    NoTailStaysInside(one);
    NoTailStaysInside(two);
    assert Start(one) == Start(g) == Start(two);
    forall n: nat, m: nat | Stops(one, g.bottom, n) && Stops(two, g.bottom, m)
      ensures Finish(one, Start(g), n).available == Finish(two, Start(g), m).available
      ensures Finish(one, Start(g), n).unavailable == Finish(two, Start(g), m).unavailable
    {
      LayoutIndependence(one, n, two, m);
    }
  }

  lemma SameTail(g: Grid, p: Probe)
    requires !Degenerate(g)
    ensures NoTail(g.(probe := p)) <==> NoTail(g)
  {
  }

  /** The last whole window is refused under a region that reaches one window further. */
  function HeldAtTheEnd(g: Grid): Probe
    requires !Degenerate(g) && LastEnd(g) + g.window < U64_LIMIT
  {
    var c := LastEnd(g) - g.window;
    Probe(true, (b: u64, size: u64) => if b == c then Refused else Placed,
          (b: u64) => Entry(true, c, 2 * g.window, ""))
  }

  lemma TailIsNoticed(g: Grid)
    requires Aligned(g) && !Degenerate(g) && !NoTail(g)
    ensures Comparable(g, ALL_PLACED, HeldAtTheEnd(g)) && !SameRecord(g, ALL_PLACED, HeldAtTheEnd(g))
  {
    hide LastEnd, Stops, Finish, OnGrid, Reach, Resume;
    var c := LastEnd(g) - g.window;
    var one, two := g.(probe := ALL_PLACED), g.(probe := HeldAtTheEnd(g));
    HeldPassesTheEnd(g, two);
    EndsIsComparable(g, two);
    LastEndOnGrid(g);
    assert Asks(one, c) && Asks(two, c) by { LastIsAsked(g, one); LastIsAsked(g, two); }
    SurelyStops(one);
    SurelyStops(two);
    var n := g.top - g.bottom;
    BottomOnGrid(one);
    BottomOnGrid(two);
    RunReaches(one, Start(g), n, c);
    RunReaches(two, Start(g), n, c);
    assert Reach(one, c) == LastEnd(g) && Reach(two, c) == g.top by { Reaches(one, two, c); }
    assert !SameRecord(g, ALL_PLACED, HeldAtTheEnd(g)) by { DifferentEnds(g, n, LastEnd(g)); }
  }

  lemma SurelyStops(g: Grid)
    requires Aligned(g) && !Degenerate(g)
    ensures Stops(g, g.bottom, g.top - g.bottom)
  {
    AlignedNeverWraps(g);
    BottomInStep(g);
    StopsWithoutWrapping(g, g.bottom, g.top - g.bottom);
  }

  lemma LastIsAsked(g: Grid, h: Grid)
    requires Aligned(g) && !Degenerate(g) && h == g.(probe := h.probe)
    ensures Asks(h, LastEnd(g) - g.window)
  {
    hide LastEnd;
    LastEndOnGrid(g);
    AlignedNeverWraps(g);
    assert OnGrid(h, LastEnd(g) - g.window);
  }

  lemma Reaches(one: Grid, two: Grid, c: u64)
    requires Usable(one) && Asks(one, c) && !Jumps(one, c)
    requires Usable(two) && Asks(two, c) && Jumps(two, c) && Resume(two, c) > two.top
    ensures Reach(one, c) == c + one.window && Reach(two, c) == two.top
  {
  }

  lemma HeldPassesTheEnd(g: Grid, h: Grid)
    requires !Degenerate(g) && LastEnd(g) + g.window < U64_LIMIT && h == g.(probe := HeldAtTheEnd(g))
    ensures Jumps(h, LastEnd(g) - g.window) && Resume(h, LastEnd(g) - g.window) == LastEnd(g) + g.window
  {
    hide LastEnd;
    QuotientOfProduct(1, g.window);
    assert Jump(h, LastEnd(g) - g.window) == 1;
  }

  lemma EndsIsComparable(g: Grid, h: Grid)
    requires !Degenerate(g) && LastEnd(g) + g.window < U64_LIMIT && h == g.(probe := HeldAtTheEnd(g))
    ensures Comparable(g, ALL_PLACED, HeldAtTheEnd(g))
  {
    hide LastEnd, OnGrid, Resume;
    forall b: u64, c: u64 | OnGrid(h, b) && OnGrid(h, c) && b < c && c + h.window <= h.top && Jumps(h, b)
      ensures Answered(h, c)
    {
    }
  }

  lemma DifferentEnds(g: Grid, n: nat, e: u64)
    requires Usable(g) && !Degenerate(g) && LastEnd(g) + g.window < U64_LIMIT && e != g.top
    requires Stops(g.(probe := ALL_PLACED), g.bottom, n) && Stops(g.(probe := HeldAtTheEnd(g)), g.bottom, n)
    requires Finish(g.(probe := ALL_PLACED), Start(g), n).available == [Measured(g.bottom, e, RunNote(g))]
    requires Finish(g.(probe := HeldAtTheEnd(g)), Start(g), n).available == [Measured(g.bottom, g.top, RunNote(g))]
    ensures !SameRecord(g, ALL_PLACED, HeldAtTheEnd(g))
  {
    hide Stops, Finish, LastEnd, RunNote;
    var one, two := g.(probe := ALL_PLACED), g.(probe := HeldAtTheEnd(g));
    assert Finish(one, Start(g), n).available[0].range.end != Finish(two, Start(g), n).available[0].range.end;
  }

  /**
   * Windows of four in an arena of ten: with both placed the walk records
   * [0, 8); with the second refused under a region that ends at 20 it records
   * [0, 10). Neither run meets a structural refusal or jumps over one.
   */
  lemma TailIsClaimed(g: Grid, h: Grid)
    requires g.bottom == 0 && g.top == 10 && g.page == 1 && g.window == 4 && g.probe == ALL_PLACED
    requires h == g.(probe := h.probe) && h.probe.place(0, 4) == Placed && h.probe.place(4, 4) == Refused
    requires h.probe.describe(4).covers && h.probe.describe(4).start == 4 && h.probe.describe(4).size == 16
    ensures Aligned(g) && !Degenerate(g) && SameRefusals(g, h) && JumpsAreClear(g) && JumpsAreClear(h)
    ensures Stops(g, 0, 10) && Finish(g, Start(g), 10).available == [Measured(0, 8, RunNote(g))]
    ensures Stops(h, 0, 10) && Finish(h, Start(h), 10).available == [Measured(0, 10, RunNote(h))]
  {
    hide Stops, Finish, RunNote;
    SurelyStops(g);
    SurelyStops(h);
    assert Resume(h, 4) == 20;
    RunReaches(g, Start(g), 10, 4);
    RunReaches(h, Start(h), 10, 4);
  }
}
