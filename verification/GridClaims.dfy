/** What the contiguous walk may claim, and when its claims do not depend on the prober's own layout. */
module GridClaims {
  import opened Words
  import opened Ranges
  import opened ArenaTypes
  import opened GridWalk
  import opened GridEnds
  import AdaptiveWalk

  // -------------------------------------------------------------------------
  // What a recorded range may claim
  // -------------------------------------------------------------------------

  /** The window at `b` was placed, held, or refused but covered by a region of the probe's own. */
  predicate Answered(g: Grid, b: u64) {
    g.probe.place(b, g.window) != Refused || g.probe.describe(b).covers
  }

  /**
   * `x` lies in a window that was asked for and answered, or below the end of the region described
   * at a covered one.
   */
  predicate Vouches(g: Grid, b: u64, x: int) {
    && Usable(g) && Asks(g, b) && b <= x
    && Answered(g, b)
    && (x < b + g.window || (Jumps(g, b) && x < WrapAdd(g.probe.describe(b).start, g.probe.describe(b).size)))
  }

  ghost predicate Justified(g: Grid, x: int) {
    exists b :: Vouches(g, b, x)
  }

  ghost predicate AllJustified(g: Grid, r: AddressRange) {
    forall x :: r.HasAddress(x) ==> Justified(g, x)
  }

  /** Available ranges: non-empty, inside the arena, justified byte by byte, with a gap between neighbours. */
  ghost predicate SoundAvailable(g: Grid, ranges: seq<ClassifiedRange>, limit: int) {
    && (forall k :: 0 <= k < |ranges| ==>
          && g.bottom <= ranges[k].range.start < ranges[k].range.end <= g.top
          && ranges[k].range.end < limit
          && AllJustified(g, ranges[k].range))
    && (forall j, k :: 0 <= j < k < |ranges| ==> ranges[j].range.end < ranges[k].range.start)
  }

  predicate StructurallyRefused(g: Grid, b: u64) {
    Usable(g) && Asks(g, b) && !Answered(g, b)
  }

  /** Unavailable ranges: exactly one asked and structurally refused window each, in increasing order. */
  ghost predicate SoundUnavailable(g: Grid, ranges: seq<ClassifiedRange>, limit: int) {
    && (forall k :: 0 <= k < |ranges| ==>
          && g.bottom <= ranges[k].range.start && ranges[k].range.end == ranges[k].range.start + g.window <= g.top
          && ranges[k].range.end <= limit
          && StructurallyRefused(g, ranges[k].range.start))
    && (forall j, k :: 0 <= j < k < |ranges| ==> ranges[j].range.end <= ranges[k].range.start)
  }

  ghost predicate Apart(a: seq<ClassifiedRange>, u: seq<ClassifiedRange>) {
    forall j, k :: 0 <= j < |a| && 0 <= k < |u| ==> !a[j].range.Intersects(u[k].range)
  }

  ghost predicate SoundLists(g: Grid, lists: Lists) {
    SoundAvailable(g, lists.0, g.top + 1) && SoundUnavailable(g, lists.1, g.top) && Apart(lists.0, lists.1)
  }

  // -------------------------------------------------------------------------
  // When the walk never over-claims
  // -------------------------------------------------------------------------

  /**
   * No base is passed over between two windows that are asked for: the pages divide the window, or
   * one window is all.
   */
  ghost predicate Gapless(g: Grid)
    requires Usable(g)
  {
    || g.window % g.page == 0
    || forall b: u64, c: u64 {:trigger Asks(g, b), Asks(g, c)} :: Asks(g, b) && Asks(g, c) ==> b == c
  }

  ghost predicate Steady(g: Grid) {
    Usable(g) && NeverWraps(g) && Gapless(g)
  }

  lemma AlignedIsSteady(g: Grid)
    requires Aligned(g)
    ensures Steady(g)
  {
    AlignedNeverWraps(g);
  }

  /** The open run starts after everything recorded so far, and reaches the walk's position if more is to be asked. */
  ghost predicate SoundRun(g: Grid, s: State) {
    match s.run
    case Closed => true
    case Open(from, to) =>
      && g.bottom <= from < to <= g.top && to <= s.base
      && (forall b: u64 :: Usable(g) && Asks(g, b) && b >= s.base ==> to == s.base)
      && AllJustified(g, AddressRange(from, to))
      && (forall k :: 0 <= k < |s.available| ==> s.available[k].range.end < from)
      && (forall k :: 0 <= k < |s.unavailable| ==> s.unavailable[k].range.end <= from)
  }

  ghost predicate Sound(g: Grid, s: State) {
    && Usable(g) && InStep(g, s.base)
    && SoundAvailable(g, s.available, s.base)
    && SoundUnavailable(g, s.unavailable, s.base)
    && Apart(s.available, s.unavailable)
    && SoundRun(g, s)
  }

  lemma AnsweredJustifies(g: Grid, b: u64, to: int)
    requires Usable(g) && Asks(g, b) && Answered(g, b)
    requires to <= b + g.window || (Jumps(g, b) && to <= Resume(g, b))
    ensures forall x :: b <= x < to ==> Justified(g, x)
  {
    JumpStaysBelowEntryEnd(g, b);
    forall x | b <= x < to ensures Justified(g, x) {
      assert Vouches(g, b, x);
    }
  }

  /** Extending the run over an answered window keeps it sound. */
  lemma ExtendIsSound(g: Grid, s: State, to: u64, next: State)
    requires Sound(g, s) && Asks(g, s.base) && Answered(g, s.base)
    requires s.base < to <= g.top && next.base >= s.base + g.window && InStep(g, next.base)
    requires to <= s.base + g.window || (Jumps(g, s.base) && to <= Resume(g, s.base))
    requires to == if next.base < g.top then next.base else g.top
    requires next.run == Extend(s.run, s.base, to)
    requires next.available == s.available && next.unavailable == s.unavailable
    ensures Sound(g, next)
  {
    hide Justified, Resume, Answered, SoundUnavailable, Apart, OnGrid;
    AnsweredJustifies(g, s.base, to);
    UnavailableWidens(g, s.unavailable, s.base, next.base);
  }

  lemma UnavailableWidens(g: Grid, ranges: seq<ClassifiedRange>, limit: int, wider: int)
    requires SoundUnavailable(g, ranges, limit) && limit <= wider
    ensures SoundUnavailable(g, ranges, wider)
    ensures forall k :: 0 <= k < |ranges| ==> ranges[k].range.end <= limit
  {
  }

  /** Closing the run moves it, unchanged, to the end of the available list. */
  lemma CloseIsSound(g: Grid, s: State, limit: int)
    requires Sound(g, s)
    requires s.base < limit && (s.run.Open? ==> s.run.end < limit)
    ensures var c := Close(g, s);
      && c.base == s.base && c.unavailable == s.unavailable && c.run == Closed
      && SoundAvailable(g, c.available, limit) && Apart(c.available, c.unavailable)
      && forall k :: 0 <= k < |c.available| ==> c.available[k].range.end <= s.base
  {
    hide Justified, InStep, StructurallyRefused, Asks;
    if s.run.Open? {
      var x := Measured(s.run.start, s.run.end, RunNote(g));
      assert Close(g, s).available == s.available + [x];
      assert AllJustified(g, x.range);
    }
  }

  lemma RefuseIsSound(g: Grid, s: State, note: string)
    requires Sound(g, s) && StructurallyRefused(g, s.base)
    ensures var c, x := Close(g, s), Measured(s.base, s.base + g.window, note);
      && SoundAvailable(g, c.available, s.base + g.window)
      && SoundUnavailable(g, s.unavailable + [x], s.base + g.window)
      && Apart(c.available, s.unavailable + [x])
  {
    hide Justified, Answered, Close, OnGrid;
    CloseIsSound(g, s, s.base + g.window);
  }

  /** A turn that asks. */
  lemma AskIsSound(g: Grid, s: State)
    requires Steady(g) && Sound(g, s) && Asks(g, s.base)
    ensures Sound(g, Ask(g, s))
  {
    hide Justified, Resume, Close, SoundAvailable, SoundUnavailable, Apart, AllJustified, OnGrid, Gapless;
    var b, w := s.base, g.window;
    var p, entry := g.probe.place(b, w), g.probe.describe(b);
    HaltsPastTop(g, b);
    MovesOn(g, b);
    if p != Refused {
      ExtendIsSound(g, s, b + w, Ask(g, s));
    } else if entry.covers {
      var resume := Resume(g, b);
      ExtendIsSound(g, s, if resume < g.top then resume else g.top, Ask(g, s));
    } else {
      RefuseIsSound(g, s, RefusalNote(g, entry));
      CloseChangesTheListOnly(g, s);
    }
  }

  /** Once a base behind an open run is passed over, nothing is left to ask. */
  lemma NothingLeftToAsk(g: Grid, s: State)
    requires Steady(g) && Sound(g, s) && s.run.Open? && s.base % g.page != 0
    ensures forall b: u64 :: Asks(g, b) ==> b < s.base
  {
    hide OnGrid, NeverWraps;
    assert Justified(g, s.run.start) by {
      assert AddressRange(s.run.start, s.run.end).HasAddress(s.run.start);
    }
    var a :| Vouches(g, a, s.run.start);
    if g.window % g.page == 0 {
      AlignedGrid(g, a, s.base);
    }
  }

  lemma AdvanceIsSound(g: Grid, s: State)
    requires Steady(g) && Sound(g, s) && !HaltsAt(g, s.base)
    ensures Sound(g, Advance(g, s))
  {
    hide SoundAvailable, SoundUnavailable, Apart, AllJustified, OnGrid, Gapless, NeverWraps, Ask, NextBase;
    HaltsPastTop(g, s.base);
    MovesOn(g, s.base);
    if s.base % g.page == 0 {
      AskIsSound(g, s);
    } else {
      var next := Advance(g, s);
      AdvanceMovesToNext(g, s);
      if s.run.Open? {
        NothingLeftToAsk(g, s);
      }
      RecordsWiden(g, s, next);
    }
  }

  lemma RecordsWiden(g: Grid, s: State, next: State)
    requires Sound(g, s) && next.available == s.available && next.unavailable == s.unavailable && next.base >= s.base
    ensures SoundAvailable(g, next.available, next.base) && SoundUnavailable(g, next.unavailable, next.base)
  {
    hide Justified, AllJustified, StructurallyRefused;
  }

  lemma FinishedIsSound(g: Grid, s: State)
    requires Sound(g, s)
    ensures SoundLists(g, (Close(g, s).available, Close(g, s).unavailable))
  {
    hide Justified, InStep, StructurallyRefused, Asks;
    var limit := if s.base < g.top then g.top + 1 else s.base + 1;
    CloseIsSound(g, s, limit);
  }

  lemma StartIsSound(g: Grid)
    requires Steady(g) && g.bottom <= g.top
    ensures Sound(g, Start(g))
  {
    BottomInStep(g);
  }

  lemma {:induction false} FinishIsSound(g: Grid, s: State, n: nat)
    requires Steady(g) && Sound(g, s) && Stops(g, s.base, n)
    ensures SoundLists(g, (Finish(g, s, n).available, Finish(g, s, n).unavailable))
    decreases n
  {
    hide Sound, Advance, Close, SoundLists, NeverWraps, Gapless, HaltsAt, Stops, Finish;
    FinishTurns(g, s, n);
    if HaltsAt(g, s.base) {
      FinishedIsSound(g, s);
    } else {
      AdvanceIsSound(g, s);
      FinishIsSound(g, Advance(g, s), n - 1);
    }
  }

  /**
   * The recorded ranges: available ones increase with gaps between them, stay
   * inside the arena and are justified byte by byte; unavailable ones are
   * structurally refused windows; and no available range meets an unavailable one.
   */
  lemma WalkNeverOverclaims(g: Grid, n: nat)
    requires Steady(g) && g.bottom <= g.top && Stops(g, g.bottom, n)
    ensures var r := Finish(g, Start(g), n); SoundLists(g, (r.available, r.unavailable))
  {
    hide Finish, Stops, SoundLists, Sound, Steady;
    StartIsSound(g);
    FinishIsSound(g, Start(g), n);
  }

  /** When the platform's descriptions start no later than the window they cover ends, a jumped byte is inside one. */
  lemma JumpedBytesAreDescribed(g: Grid, b: u64, x: int)
    requires Vouches(g, b, x) && x >= b + g.window
    requires g.probe.describe(b).start <= b + g.window
    requires g.probe.describe(b).start + g.probe.describe(b).size < U64_LIMIT
    ensures g.probe.describe(b).start <= x < g.probe.describe(b).start + g.probe.describe(b).size
  {
  }

  // -------------------------------------------------------------------------
  // ... and when it does
  // -------------------------------------------------------------------------

  ghost predicate AllPlaced(g: Grid) {
    forall b: u64, size: u64 :: g.probe.place(b, size) == Placed
  }

  /** The state while everything is placed: at most one run, from the first window asked for. */
  ghost predicate OneRun(g: Grid, s: State, a: u64, c: u64) {
    && Usable(g) && InStep(g, s.base)
    && s.available == [] && (s.run.Open? ==> s.run.start < s.run.end <= s.base && s.run.end <= g.top)
    && (a < s.base ==> s.run.Open? && s.run.start <= a)
    && (c < s.base ==> s.run.Open? && c < s.run.end)
  }

  /** Every window asked for between two others ends up inside their common run. */
  lemma {:induction false} RunSpans(g: Grid, s: State, n: nat, a: u64, c: u64)
    requires Usable(g) && NeverWraps(g) && AllPlaced(g) && Stops(g, s.base, n)
    requires Asks(g, a) && Asks(g, c) && a < c && OneRun(g, s, a, c)
    ensures var r := Finish(g, s, n).available;
      |r| == 1 && r[0].range.start <= a && c < r[0].range.end <= g.top
    decreases n
  {
    hide OnGrid, NeverWraps, Stops, Finish;
    FinishTurns(g, s, n);
    HaltsPastTop(g, s.base);
    if HaltsAt(g, s.base) {
      AllAskedBehind(g, s.base, a);
      AllAskedBehind(g, s.base, c);
    } else {
      MovesOn(g, s.base);
      AdvanceMovesToNext(g, s);
      AskedIsStoodAt(g, s.base, a);
      AskedIsStoodAt(g, s.base, c);
      RunSpans(g, Advance(g, s), n - 1, a, c);
    }
  }

  lemma AllAskedBehind(g: Grid, b: u64, a: u64)
    requires Usable(g) && InStep(g, b) && HaltsAt(g, b) && Asks(g, a)
    ensures a < b
  {
    hide OnGrid;
    HaltsPastTop(g, b);
  }

  /** The loop does not step over an aligned base of its grid, unless it jumps. */
  lemma AskedIsStoodAt(g: Grid, b: u64, a: u64)
    requires Usable(g) && NeverWraps(g) && AllPlaced(g) && InStep(g, b) && !HaltsAt(g, b) && Asks(g, a)
    ensures a < NextBase(g, b) ==> a <= b
  {
    MovesOn(g, b);
    if b < a {
      GridStep(g, b, a);
    }
  }

  /** A window off the pages is never asked for, so nothing vouches for its first byte when all is placed. */
  lemma SkippedIsUnjustified(g: Grid, a: u64)
    requires Usable(g) && AllPlaced(g) && Asks(g, a) && g.window % g.page != 0
    ensures !Justified(g, a + g.window)
  {
    hide OnGrid;
    if Justified(g, a + g.window) {
      var b :| Vouches(g, b, a + g.window);
      GridStep(g, a, b);
      SameResidue(g.window, a, 1, g.page);
      assert false;
    }
  }

  /**
   * With every window placed, the walk claims only what it asked for exactly when it passes over no
   * base in between.
   */
  lemma AllPlacedIsSoundExactly(g: Grid, n: nat)
    requires Usable(g) && NeverWraps(g) && AllPlaced(g) && g.bottom <= g.top && Stops(g, g.bottom, n)
    ensures var r := Finish(g, Start(g), n); SoundLists(g, (r.available, r.unavailable)) <==> Gapless(g)
  {
    hide Finish, Stops, NeverWraps, Asks, SoundLists;
    if Gapless(g) {
      WalkNeverOverclaims(g, n);
    } else {
      var b: u64, c: u64 :| Asks(g, b) && Asks(g, c) && b != c;
      GapIsClaimed(g, n, if b < c then b else c, if b < c then c else b);
    }
  }

  lemma GapIsClaimed(g: Grid, n: nat, a: u64, c: u64)
    requires Usable(g) && NeverWraps(g) && AllPlaced(g) && Stops(g, g.bottom, n)
    requires g.window % g.page != 0 && Asks(g, a) && Asks(g, c) && a < c
    ensures !SoundLists(g, (Finish(g, Start(g), n).available, Finish(g, Start(g), n).unavailable))
  {
    hide Finish, Stops, NeverWraps, OnGrid, Justified, SoundUnavailable, Apart;
    var r := Finish(g, Start(g), n).available;
    BottomInStep(g);
    RunSpans(g, Start(g), n, a, c);
    GridStep(g, a, c);
    SkippedIsUnjustified(g, a);
    assert r[0].range.HasAddress(a + g.window);
    assert !AllJustified(g, r[0].range);
  }

  const ALL_PLACED := Probe(true, (b: u64, size: u64) => Placed, (b: u64) => Entry(false, 0, 0, ""))

  ghost predicate ClaimsHold(g: Grid)
    requires Usable(g)
  {
    forall n: nat :: Stops(g, g.bottom, n) ==>
      SoundLists(g, (Finish(g, Start(g), n).available, Finish(g, Start(g), n).unavailable))
  }

  /**
   * Whether the recorded ranges can be trusted is decided by the arena, the
   * page and the window: they are justified for every platform whose answers
   * do not wrap the loop exactly when no base is passed over in between.
   */
  lemma ClaimsHoldExactly(g: Grid)
    requires !Degenerate(g) && g.top + g.window < U64_LIMIT
    ensures Gapless(g) <==>
            forall probe: Probe :: NeverWraps(g.(probe := probe)) ==> ClaimsHold(g.(probe := probe))
  {
    hide Gapless, NeverWraps, ClaimsHold;
    if Gapless(g) {
      forall probe: Probe | NeverWraps(g.(probe := probe)) ensures ClaimsHold(g.(probe := probe)) {
        SameGaps(g, g.(probe := probe));
        GaplessHolds(g.(probe := probe));
      }
    } else {
      var h := g.(probe := ALL_PLACED);
      SameGaps(g, h);
      GapFails(h);
      assert NeverWraps(g.(probe := ALL_PLACED)) && !ClaimsHold(g.(probe := ALL_PLACED));
    }
  }

  lemma SameGaps(g: Grid, h: Grid)
    requires Usable(g) && h == g.(probe := h.probe)
    ensures Gapless(g) <==> Gapless(h)
  {
    assert forall b: u64 :: Asks(g, b) <==> Asks(h, b);
  }

  lemma GaplessHolds(g: Grid)
    requires Usable(g) && Steady(g) && g.bottom <= g.top
    ensures ClaimsHold(g)
  {
    hide Finish, Stops, SoundLists, Steady;
    forall n: nat | Stops(g, g.bottom, n)
      ensures SoundLists(g, (Finish(g, Start(g), n).available, Finish(g, Start(g), n).unavailable))
    {
      WalkNeverOverclaims(g, n);
    }
  }

  lemma GapFails(g: Grid)
    requires !Degenerate(g) && g.top + g.window < U64_LIMIT && g.probe == ALL_PLACED && !Gapless(g)
    ensures NeverWraps(g) && !ClaimsHold(g)
  {
    hide Finish, Stops, SoundLists, Gapless, Asks, NeverWraps;
    RoomAboveNeverWraps(g);
    UnwrappedEnds(g);
    var n: nat :| Stops(g, g.bottom, n);
    AllPlacedIsSoundExactly(g, n);
  }

  /**
   * Two-byte pages, three-byte windows: those at 0 and 6 are placed, the one
   * at 3 is never asked for, and the walk records all nine bytes as available.
   */
  lemma PassedOverWindowIsClaimed(g: Grid)
    requires g.bottom == 0 && g.top == 9 && g.page == 2 && g.window == 3 && AllPlaced(g)
    ensures !Degenerate(g) && NeverWraps(g) && Stops(g, 0, 3) && !Asks(g, 3)
    ensures Finish(g, Start(g), 3).available == [Measured(0, 9, RunNote(g))] && !Justified(g, 3)
  {
    var one := Advance(g, Start(g));
    var two := Advance(g, one);
    assert two.base == 6 && two.run == Open(0, 3);
    var three := Advance(g, two);
    assert three.base == 9 && three.run == Open(0, 9);
    FinishIsThree(g, one, two, three);
    SkippedIsUnjustified(g, 0);
  }

  lemma FinishIsThree(g: Grid, one: State, two: State, three: State)
    requires Usable(g) && !HaltsAt(g, g.bottom) && one == Advance(g, Start(g))
    requires !HaltsAt(g, one.base) && two == Advance(g, one)
    requires !HaltsAt(g, two.base) && three == Advance(g, two) && HaltsAt(g, three.base)
    ensures Stops(g, g.bottom, 3) && Finish(g, Start(g), 3) == Close(g, three)
  {
    hide HaltsAt, Advance, Close;
    AdvanceMovesToNext(g, Start(g));
    AdvanceMovesToNext(g, one);
    AdvanceMovesToNext(g, two);
    assert Finish(g, two, 1) == Finish(g, three, 0);
    assert Stops(g, two.base, 1) by { assert Stops(g, three.base, 0); }
    assert Stops(g, one.base, 2);
  }

  // -------------------------------------------------------------------------
  // The window-by-window walk
  // -------------------------------------------------------------------------

  type Lists = (seq<ClassifiedRange>, seq<ClassifiedRange>)

  /** One window on its own: usable windows merge into runs, refused ones stay apart. */
  function AddWindow(g: Grid, b: u64, lists: Lists): Lists
    requires b + g.window < U64_LIMIT
  {
    if Answered(g, b) then
      (AdaptiveWalk.Append(lists.0, b, b + g.window, RunNote(g)), lists.1)
    else
      (lists.0, lists.1 + [Measured(b, b + g.window, RefusalNote(g, g.probe.describe(b)))])
  }

  function Windows(g: Grid, b: u64, lists: Lists): Lists
    requires g.window > 0
    decreases g.top - b
  {
    if b + g.window > g.top then lists else Windows(g, b + g.window, AddWindow(g, b, lists))
  }

  /** No jump passes the last whole window: there are only whole windows, or every jump resumes inside the arena. */
  ghost predicate StaysInside(g: Grid) {
    Usable(g) && (OnGrid(g, g.top) || forall b: u64 :: Asks(g, b) && Jumps(g, b) ==> Resume(g, b) <= g.top)
  }

  /** No structurally refused window lies in the stretch a held entry lets the walk jump over. */
  ghost predicate JumpsAreClear(g: Grid)
    requires g.window > 0
  {
    forall b: u64, c: u64 {:trigger OnGrid(g, b), OnGrid(g, c)} ::
      OnGrid(g, b) && OnGrid(g, c) && b < c && c + g.window <= g.top && Jumps(g, b) && c + g.window <= Resume(g, b) ==>
        Answered(g, c)
  }

  /** Walking usable windows one at a time is appending their union. */
  lemma {:induction false} UsableWindows(g: Grid, b: u64, c: u64, lists: Lists)
    requires Usable(g) && OnGrid(g, b) && OnGrid(g, c) && b < c <= g.top
    requires forall w: u64 :: OnGrid(g, w) && b <= w < c ==> Answered(g, w)
    ensures Windows(g, b, lists) == Windows(g, c, (AdaptiveWalk.Append(lists.0, b, c, RunNote(g)), lists.1))
    decreases c - b
  {
    hide AdaptiveWalk.Append, Answered, OnGrid;
    GridStep(g, b, c);
    var m := b + g.window;
    if m < c {
      UsableWindows(g, m, c, AddWindow(g, b, lists));
      AdaptiveWalk.AppendInTwoSteps(lists.0, b, m, c, RunNote(g));
    }
  }

  /** The lists as they would be if the open run were closed now. */
  function Pending(g: Grid, s: State): Lists {
    match s.run
    case Closed => (s.available, s.unavailable)
    case Open(from, to) => (s.available + [Measured(from, to, RunNote(g))], s.unavailable)
  }

  lemma AppendToPending(g: Grid, s: State, to: u64)
    requires Sound(g, s) && Asks(g, s.base) && s.base < to
    ensures AdaptiveWalk.Append(Pending(g, s).0, s.base, to, RunNote(g)) ==
            Pending(g, s.(run := Extend(s.run, s.base, to))).0
  {
    hide Justified, AllJustified, RunNote;
    match s.run
    case Closed =>
    case Open(from, end) =>
      assert end == s.base;
      assert (s.available + [Measured(from, end, RunNote(g))])[..|s.available|] == s.available;
  }

  /** A jump passes windows that are all usable. */
  lemma JumpIsWindows(g: Grid, s: State, to: u64)
    requires StaysInside(g) && JumpsAreClear(g) && Sound(g, s) && Asks(g, s.base) && Jumps(g, s.base)
    requires to == if Resume(g, s.base) < g.top then Resume(g, s.base) else g.top
    ensures Windows(g, s.base, Pending(g, s)) ==
            Windows(g, to, Pending(g, s.(run := Extend(s.run, s.base, to))))
  {
    hide OnGrid, Sound, Resume, AdaptiveWalk.Append, Pending;
    NextOnGrid(g, s.base);
    forall c: u64 | OnGrid(g, c) && s.base <= c < to ensures Answered(g, c) {
      GridStep(g, c, to);
    }
    UsableWindows(g, s.base, to, Pending(g, s));
    AppendToPending(g, s, to);
    SameUnavailable(g, s, to);
  }

  lemma SameUnavailable(g: Grid, s: State, to: u64)
    ensures Pending(g, s.(run := Extend(s.run, s.base, to))).1 == Pending(g, s).1
  {
  }

  /** One turn, jumps included, does to the lists what the windows it passes do one by one. */
  lemma TurnIsWindows(g: Grid, s: State)
    requires StaysInside(g) && JumpsAreClear(g) && Sound(g, s) && Asks(g, s.base)
    ensures var next := Ask(g, s);
      Windows(g, s.base, Pending(g, s)) ==
      Windows(g, if next.base < g.top then next.base else g.top, Pending(g, next))
  {
    hide OnGrid, Sound, Resume, AdaptiveWalk.Append, JumpsAreClear;
    var b, w := s.base, g.window;
    assert b + w <= g.top;
    if g.probe.place(b, w) != Refused {
      AppendToPending(g, s, b + w);
    } else if g.probe.describe(b).covers {
      var resume := Resume(g, b);
      JumpIsWindows(g, s, if resume < g.top then resume else g.top);
    } else {
      CloseIsPending(g, s);
    }
  }

  lemma CloseIsPending(g: Grid, s: State)
    requires Sound(g, s)
    ensures (Close(g, s).available, Close(g, s).unavailable) == Pending(g, s)
  {
  }

  lemma {:induction false} FinishIsWindows(g: Grid, s: State, n: nat)
    requires Aligned(g) && StaysInside(g) && JumpsAreClear(g) && Sound(g, s) && Stops(g, s.base, n)
    ensures var r := Finish(g, s, n);
      (r.available, r.unavailable) == Windows(g, if s.base < g.top then s.base else g.top, Pending(g, s))
    decreases n
  {
    hide OnGrid, Sound, Advance, JumpsAreClear, Pending, AddWindow, Close, HaltsAt, Stops, Finish, NeverWraps;
    hide StaysInside;
    FinishTurns(g, s, n);
    AlignedNeverWraps(g);
    assert InStep(g, s.base) by { SoundIsInStep(g, s); }
    HaltsPastTop(g, s.base);
    if HaltsAt(g, s.base) {
      CloseIsPending(g, s);
    } else {
      AlignedTurnAsks(g, s);
      TurnIsWindows(g, s);
      AdvanceIsSound(g, s);
      FinishIsWindows(g, Advance(g, s), n - 1);
    }
  }

  lemma SoundIsInStep(g: Grid, s: State)
    requires Sound(g, s)
    ensures Usable(g) && InStep(g, s.base)
  {
  }

  lemma AlignedTurnAsks(g: Grid, s: State)
    requires Aligned(g) && Sound(g, s) && !HaltsAt(g, s.base)
    ensures Asks(g, s.base) && Advance(g, s) == Ask(g, s)
  {
    hide Ask, OnGrid;
    AlignedNeverWraps(g);
    HaltsPastTop(g, s.base);
  }

  /** The jumping, run-merging loop records exactly what the window-by-window walk records. */
  lemma WalkIsWindows(g: Grid, n: nat)
    requires Aligned(g) && StaysInside(g) && JumpsAreClear(g) && g.bottom <= g.top && Stops(g, g.bottom, n)
    ensures var r := Finish(g, Start(g), n); (r.available, r.unavailable) == Windows(g, g.bottom, ([], []))
  {
    hide Finish, Windows, Sound, JumpsAreClear, StaysInside, Stops, Steady;
    AlignedIsSteady(g);
    StartIsSound(g);
    FinishIsWindows(g, Start(g), n);
  }

  // -------------------------------------------------------------------------
  // Layout independence
  // -------------------------------------------------------------------------

  /** Two walks of one arena that meet the same structural refusals, with the same text. */
  ghost predicate SameRefusals(g: Grid, h: Grid)
    requires g.window > 0
  {
    && g.what == h.what && g.bottom == h.bottom && g.top == h.top && g.window == h.window
    && forall b: u64 :: OnGrid(g, b) && b + g.window <= g.top ==>
         && (Answered(g, b) <==> Answered(h, b))
         && (!Answered(g, b) ==> g.probe.describe(b).text == h.probe.describe(b).text)
  }

  lemma {:induction false} WindowsDependOnRefusals(g: Grid, h: Grid, b: u64, lists: Lists)
    requires g.window > 0 && h.window > 0 && SameRefusals(g, h) && OnGrid(g, b)
    ensures Windows(g, b, lists) == Windows(h, b, lists)
    decreases g.top - b
  {
    hide Answered, AdaptiveWalk.Append, OnGrid;
    if b + g.window <= g.top {
      NextOnGrid(g, b);
      assert AddWindow(g, b, lists) == AddWindow(h, b, lists);
      WindowsDependOnRefusals(g, h, b + g.window, AddWindow(g, b, lists));
    }
  }

  /**
   * However two runs of the probe split the other windows into placed, held
   * and covered, and whatever each jumps over, agreeing on the structurally
   * refused windows makes the recorded ranges identical.
   */
  lemma LayoutIndependence(g: Grid, n: nat, h: Grid, m: nat)
    requires Aligned(g) && Aligned(h) && StaysInside(g) && StaysInside(h) && g.bottom <= g.top
    requires JumpsAreClear(g) && JumpsAreClear(h) && SameRefusals(g, h)
    requires Stops(g, g.bottom, n) && Stops(h, h.bottom, m)
    ensures var r, t := Finish(g, Start(g), n), Finish(h, Start(h), m);
      r.available == t.available && r.unavailable == t.unavailable
  {
    hide Finish, Windows, JumpsAreClear, StaysInside, Stops, SameRefusals, OnGrid, Answered;
    assert g.bottom == h.bottom && g.top == h.top by { SameArena(g, h); }
    WalkIsWindows(g, n);
    WalkIsWindows(h, m);
    BottomOnGrid(g);
    WindowsDependOnRefusals(g, h, g.bottom, ([], []));
  }

  lemma SameArena(g: Grid, h: Grid)
    requires g.window > 0 && SameRefusals(g, h)
    ensures g.bottom == h.bottom && g.top == h.top && g.window == h.window
  {
  }
}
