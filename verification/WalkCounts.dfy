/** What the counters of the two arena walks count. */
module WalkCounts {
  import opened Words
  import opened Multiples
  import opened ArenaTypes
  import opened AdaptiveWalk
  import AdaptiveWalker
  import GridWalk
  import GridEnds

  /** The four answers to a placement. */
  datatype Answer = Given | Own | Guarded | Barred

  function AnswerTo(probe: Probe, address: u64, size: u64): Answer {
    match probe.place(address, size)
    case Placed => Given
    case HeldByProbe => Own
    case Refused => if probe.describe(address).covers then Guarded else Barred
  }

  // -------------------------------------------------------------------------
  // The adaptive walk: pages tried alone
  // -------------------------------------------------------------------------

  /** Halving the `n` pages from `i` on gets down to page `k` alone. */
  predicate ComesDownTo(arena: Arena, i: nat, n: nat, k: nat)
    requires Valid(arena) && i <= k < i + n <= arena.pages
    decreases n
  {
    || n == 1
    || (&& PlaceAt(arena, i, n) != Placed
        && if k < i + n / 2 then ComesDownTo(arena, i, n / 2, k)
           else ComesDownTo(arena, i + n / 2, n - n / 2, k))
  }

  predicate Answers(arena: Arena, i: nat, n: nat, k: nat, answer: Answer)
    requires Valid(arena) && i <= k < i + n <= arena.pages
  {
    ComesDownTo(arena, i, n, k) && AnswerTo(arena.probe, Address(arena, k), Bytes(arena, 1)) == answer
  }

  /** How many of the pages `from .. to` of a tile are tried alone and answer so. */
  function PagesOf(arena: Arena, i: nat, n: nat, from: nat, to: nat, answer: Answer): nat
    requires from <= to
    requires Valid(arena) && i <= from && to <= i + n <= arena.pages
    decreases (to as int) - (from as int)
  {
    if from == to then 0
    else var rest := PagesOf(arena, i, n, from + 1, to, answer);
      if Answers(arena, i, n, from, answer) then rest + 1 else rest
  }

  function CounterOf(w: Tally, answer: Answer): nat {
    match answer
    case Given => w.placed
    case Own => w.heldByProbe
    case Guarded => w.heldNoAccess
    case Barred => w.refused
  }

  lemma {:induction false} PagesOfTwo(arena: Arena, i: nat, n: nat, from: nat, mid: nat, to: nat, answer: Answer)
    requires Valid(arena) && i <= from <= mid <= to <= i + n <= arena.pages
    ensures PagesOf(arena, i, n, from, to, answer) ==
            PagesOf(arena, i, n, from, mid, answer) + PagesOf(arena, i, n, mid, to, answer)
    decreases mid - from
  {
    hide Valid, Answers;
    if from < mid {
      PagesOfTwo(arena, i, n, from + 1, mid, to, answer);
    }
  }

  /** Where the tile itself is not granted, what counts is what its halves count. */
  lemma {:induction false} PagesOfHalf(arena: Arena, i: nat, n: nat, j: nat, m: nat, from: nat, answer: Answer)
    requires Valid(arena) && 1 < n && i + n <= arena.pages && PlaceAt(arena, i, n) != Placed
    requires (j == i && m == n / 2) || (j == i + n / 2 && m == n - n / 2)
    requires j <= from <= j + m
    ensures PagesOf(arena, i, n, from, j + m, answer) == PagesOf(arena, j, m, from, j + m, answer)
    decreases j + m - from
  {
    hide Valid, PlaceAt, AnswerTo, Address, Bytes;
    if from < j + m {
      assert ComesDownTo(arena, i, n, from) <==> ComesDownTo(arena, j, m, from);
      PagesOfHalf(arena, i, n, j, m, from + 1, answer);
    }
  }

  lemma {:induction false} NoneOfAGrantedTile(arena: Arena, i: nat, n: nat, from: nat, answer: Answer)
    requires Valid(arena) && 1 <= n && i <= from <= i + n <= arena.pages
    requires PlaceAt(arena, i, n) == Placed && answer != Given
    ensures PagesOf(arena, i, n, from, i + n, answer) == 0
    decreases i + n - from
  {
    hide Valid;
    if from < i + n {
      NoneOfAGrantedTile(arena, i, n, from + 1, answer);
    }
  }

  /** Each of the three counters of pages counts the pages tried alone that answer so. */
  lemma {:induction false} TileCounts(arena: Arena, i: nat, n: nat, w: Tally, answer: Answer)
    requires Valid(arena) && 1 <= n && i + n <= arena.pages && answer != Given
    ensures CounterOf(Full(arena, i, n, w), answer) == CounterOf(w, answer) + PagesOf(arena, i, n, i, i + n, answer)
    decreases n
  {
    hide Valid, Address, Append, AvailableNote, RefusedNote, Bytes, PagesOf;
    if PlaceAt(arena, i, n) == Placed {
      NoneOfAGrantedTile(arena, i, n, i, answer);
    } else if n > 1 {
      var tried := w.(attempts := w.attempts + 1);
      TileCounts(arena, i, n / 2, tried, answer);
      TileCounts(arena, i + n / 2, n - n / 2, Full(arena, i, n / 2, tried), answer);
      HalvesCount(arena, i, n, answer);
    } else {
      OnePage(arena, i, answer);
    }
  }

  lemma HalvesCount(arena: Arena, i: nat, n: nat, answer: Answer)
    requires Valid(arena) && 1 < n && i + n <= arena.pages && PlaceAt(arena, i, n) != Placed
    ensures PagesOf(arena, i, n, i, i + n, answer) ==
            PagesOf(arena, i, n / 2, i, i + n / 2, answer)
            + PagesOf(arena, i + n / 2, n - n / 2, i + n / 2, i + n, answer)
  {
    hide Valid, PlaceAt, PagesOf;
    PagesOfTwo(arena, i, n, i, i + n / 2, i + n, answer);
    PagesOfHalf(arena, i, n, i, n / 2, i, answer);
    PagesOfHalf(arena, i, n, i + n / 2, n - n / 2, i + n / 2, answer);
  }

  lemma OnePage(arena: Arena, i: nat, answer: Answer)
    requires Valid(arena) && i < arena.pages
    ensures PagesOf(arena, i, 1, i, i + 1, answer) ==
            if AnswerTo(arena.probe, Address(arena, i), Bytes(arena, 1)) == answer then 1 else 0
  {
    hide Valid, Address, Bytes, AnswerTo;
    assert PagesOf(arena, i, 1, i + 1, i + 1, answer) == 0;
  }

  /** The first page of the tile that page `k` lies in. */
  function TileStart(window: nat, k: nat): (start: nat)
    requires window > 0
    ensures start <= k < start + window
  {
    k - k % window
  }

  /** Page `k` is tried alone by the walk over the arena, and answers so. */
  predicate AloneAnswers(arena: Arena, window: nat, k: nat, answer: Answer)
    requires Valid(arena) && window > 0 && k < arena.pages
  {
    var start := TileStart(window, k);
    Answers(arena, start, TileSize(arena, window, start), k, answer)
  }

  function AllPages(arena: Arena, window: nat, from: nat, to: nat, answer: Answer): nat
    requires Valid(arena) && window > 0 && from <= to <= arena.pages
    decreases (to as int) - (from as int)
  {
    if from == to then 0
    else (if AloneAnswers(arena, window, from, answer) then 1 else 0) + AllPages(arena, window, from + 1, to, answer)
  }

  lemma {:induction false} AllPagesOfTwo(arena: Arena, window: nat, from: nat, mid: nat, to: nat, answer: Answer)
    requires Valid(arena) && window > 0 && from <= mid <= to <= arena.pages
    ensures AllPages(arena, window, from, to, answer) ==
            AllPages(arena, window, from, mid, answer) + AllPages(arena, window, mid, to, answer)
    decreases mid - from
  {
    hide Valid, AloneAnswers;
    if from < mid {
      AllPagesOfTwo(arena, window, from + 1, mid, to, answer);
    }
  }

  lemma RemainderIs(n: nat, q: nat, m: nat, r: nat)
    requires 0 <= r < m && n == q * m + r
    ensures n % m == r
  {
    Quotient(q, m, r);
  }

  lemma InTile(window: nat, start: nat, k: nat)
    requires window > 0 && start % window == 0 && start <= k < start + window
    ensures TileStart(window, k) == start
  {
    assert start == start / window * window;
    RemainderIs(k, start / window, window, k - start);
  }

  lemma {:induction false} AllPagesOfTile(arena: Arena, window: nat, start: nat, from: nat, answer: Answer)
    requires Valid(arena) && window > 0 && start % window == 0 && start < arena.pages
    requires start <= from <= start + TileSize(arena, window, start)
    ensures var n := TileSize(arena, window, start);
      AllPages(arena, window, from, start + n, answer) == PagesOf(arena, start, n, from, start + n, answer)
    decreases start + TileSize(arena, window, start) - from
  {
    hide Valid, Answers;
    if from < start + TileSize(arena, window, start) {
      InTile(window, start, from);
      AllPagesOfTile(arena, window, start, from + 1, answer);
    }
  }

  lemma {:induction false} TilesCount(arena: Arena, window: nat, i: nat, w: Tally, answer: Answer)
    requires Valid(arena) && window > 0 && i <= arena.pages && answer != Given
    requires i % window == 0 || i == arena.pages
    ensures CounterOf(Tiles(arena, window, i, w), answer) ==
            CounterOf(w, answer) + AllPages(arena, window, i, arena.pages, answer)
    decreases arena.pages - i
  {
    hide Valid, Full, AllPages, PagesOf, CounterOf;
    if i < arena.pages {
      var n := TileSize(arena, window, i);
      TileCounts(arena, i, n, w, answer);
      NextTile(arena, window, i);
      TilesCount(arena, window, i + n, Full(arena, i, n, w), answer);
      AllPagesOfTile(arena, window, i, i, answer);
      AllPagesOfTwo(arena, window, i, i + n, arena.pages, answer);
    } else {
      NoPages(arena, window, answer);
    }
  }

  lemma NoPages(arena: Arena, window: nat, answer: Answer)
    requires Valid(arena) && window > 0
    ensures AllPages(arena, window, arena.pages, arena.pages, answer) == 0
  {
  }

  lemma NextTile(arena: Arena, window: nat, i: nat)
    requires window > 0 && i % window == 0 && i < arena.pages
    ensures var next := i + TileSize(arena, window, i);
      next % window == 0 || next == arena.pages
  {
    if arena.pages - i >= window {
      assert i == i / window * window;
      assert i + window == (i / window + 1) * window;
      RemainderIs(i + window, i / window + 1, window, 0);
    }
  }

  /**
   * The counters of an adaptive walk: pages the probe holds itself, pages held
   * without access and pages refused are the pages that were tried alone and
   * answered so; what is left of the leaves was placed.
   */
  lemma AdaptiveCountersCount(arena: Arena, window: nat)
    requires Valid(arena) && window > 0
    ensures var w := AdaptiveWalker.Report(Tiles(arena, window, 0, NOTHING));
      && w.skipped == 0 && !w.budgetExhausted
      && w.heldByProbe == AllPages(arena, window, 0, arena.pages, Own)
      && w.heldNoAccess == AllPages(arena, window, 0, arena.pages, Guarded)
      && w.refused == AllPages(arena, window, 0, arena.pages, Barred)
      && 2 * w.placed == w.attempts + TileCount(arena, window, 0)
                         - 2 * (w.heldByProbe + w.heldNoAccess + w.refused)
  {
    hide Valid, Tiles, TileCount, AllPages;
    TilesCount(arena, window, 0, NOTHING, Own);
    TilesCount(arena, window, 0, NOTHING, Guarded);
    TilesCount(arena, window, 0, NOTHING, Barred);
    TilesCost(arena, window, 0, NOTHING);
  }

  // -------------------------------------------------------------------------
  // The walk in contiguous windows: turns
  // -------------------------------------------------------------------------

  /** Standing at `b`, the loop asks for a window and is answered so. */
  predicate TurnAnswers(g: GridWalk.Grid, b: u64, answer: Answer)
    requires GridWalk.Usable(g)
  {
    !GridWalk.HaltsAt(g, b) && b % g.page == 0 && AnswerTo(g.probe, b, g.window) == answer
  }

  /** How many of the first `n` turns are answered so. */
  function Turns(g: GridWalk.Grid, b: u64, n: nat, answer: Answer): nat
    requires GridWalk.Usable(g)
  {
    if n == 0 then 0
    else Turns(g, b, n - 1, answer) + if TurnAnswers(g, GridEnds.After(g, b, n - 1), answer) then 1 else 0
  }

  /** How many windows the first `n` turns jump over. */
  function Jumped(g: GridWalk.Grid, b: u64, n: nat): nat
    requires GridWalk.Usable(g)
  {
    if n == 0 then 0
    else
      var at := GridEnds.After(g, b, n - 1);
      Jumped(g, b, n - 1) + if TurnAnswers(g, at, Guarded) then GridWalk.Jump(g, at) else 0
  }

  function GridCounter(s: GridWalk.State, answer: Answer): nat {
    match answer
    case Given => s.placed
    case Own => s.heldByProbe
    case Guarded => s.heldNoAccess
    case Barred => s.refused
  }

  lemma {:induction false} TurnsFromNext(g: GridWalk.Grid, b: u64, n: nat, answer: Answer)
    requires GridWalk.Usable(g) && !GridWalk.HaltsAt(g, b)
    ensures Turns(g, b, n + 1, answer) ==
            (if TurnAnswers(g, b, answer) then 1 else 0) + Turns(g, GridWalk.NextBase(g, b), n, answer)
    ensures Jumped(g, b, n + 1) ==
            (if TurnAnswers(g, b, Guarded) then GridWalk.Jump(g, b) else 0) + Jumped(g, GridWalk.NextBase(g, b), n)
  {
    hide TurnAnswers, GridWalk.HaltsAt, GridWalk.NextBase, GridWalk.Jump;
    if n > 0 {
      TurnsFromNext(g, b, n - 1, answer);
      assert GridEnds.After(g, b, n) == GridEnds.After(g, GridWalk.NextBase(g, b), n - 1);
    } else {
      assert GridEnds.After(g, b, 0) == b;
      assert Turns(g, b, 0, answer) == 0 && Jumped(g, b, 0) == 0;
    }
  }

  lemma {:induction false} NoTurnsLeft(g: GridWalk.Grid, b: u64, n: nat, answer: Answer)
    requires GridWalk.Usable(g) && GridWalk.HaltsAt(g, b)
    ensures Turns(g, b, n, answer) == 0 && Jumped(g, b, n) == 0
  {
    hide GridWalk.HaltsAt, GridWalk.Jump;
    if n > 0 {
      NoTurnsLeft(g, b, n - 1, answer);
      assert GridEnds.After(g, b, n - 1) == b;
    }
  }

  lemma TurnCounts(g: GridWalk.Grid, s: GridWalk.State, answer: Answer)
    requires GridWalk.Usable(g) && !GridWalk.HaltsAt(g, s.base)
    ensures GridCounter(GridWalk.Advance(g, s), answer) ==
            GridCounter(s, answer) + if TurnAnswers(g, s.base, answer) then 1 else 0
    ensures GridWalk.Advance(g, s).skipped ==
            s.skipped + if TurnAnswers(g, s.base, Guarded) then GridWalk.Jump(g, s.base) else 0
  {
    hide GridWalk.Close, GridWalk.Resume, GridWalk.Jump;
    GridWalk.CloseChangesTheListOnly(g, s);
  }

  lemma {:induction false} FinishCounts(g: GridWalk.Grid, s: GridWalk.State, n: nat, answer: Answer)
    requires GridWalk.Usable(g) && GridWalk.Stops(g, s.base, n)
    ensures var r := GridWalk.Finish(g, s, n);
      && GridCounter(r, answer) == GridCounter(s, answer) + Turns(g, s.base, n, answer)
      && r.skipped == s.skipped + Jumped(g, s.base, n)
    decreases n
  {
    hide GridWalk.Close, GridWalk.Advance, GridWalk.NextBase, TurnAnswers, GridWalk.HaltsAt, GridWalk.Jump;
    GridWalk.FinishTurns(g, s, n);
    if GridWalk.HaltsAt(g, s.base) {
      NoTurnsLeft(g, s.base, n, answer);
      GridWalk.CloseChangesTheListOnly(g, s);
    } else {
      TurnsFromNext(g, s.base, n - 1, answer);
      GridWalk.AdvanceMovesToNext(g, s);
      TurnCounts(g, s, answer);
      FinishCounts(g, GridWalk.Advance(g, s), n - 1, answer);
    }
  }

  /** The counters of a walk in windows: its turns by their answer, and the windows its jumps pass over. */
  lemma GridCountersCount(g: GridWalk.Grid, n: nat)
    requires GridWalk.Usable(g) && GridWalk.Stops(g, g.bottom, n)
    ensures var r := GridWalk.Report(GridWalk.Finish(g, GridWalk.Start(g), n));
      && r.attempts == 0 && !r.budgetExhausted
      && r.placed == Turns(g, g.bottom, n, Given) && r.heldByProbe == Turns(g, g.bottom, n, Own)
      && r.heldNoAccess == Turns(g, g.bottom, n, Guarded) && r.refused == Turns(g, g.bottom, n, Barred)
      && r.skipped == Jumped(g, g.bottom, n)
  {
    hide GridWalk.Finish, GridWalk.Stops, Turns, Jumped;
    FinishCounts(g, GridWalk.Start(g), n, Given);
    FinishCounts(g, GridWalk.Start(g), n, Own);
    FinishCounts(g, GridWalk.Start(g), n, Guarded);
    FinishCounts(g, GridWalk.Start(g), n, Barred);
  }
}
