/**
 * The contiguous-window arena walk, which merges usable windows into runs and
 * jumps over the rest of a held entry.
 *
 * `Advance` is one turn of the source's loop; `GridWalker` is the loop itself, in
 * the 64-bit arithmetic the source computes with. A base that is not a whole
 * number of pages is passed over without a question, and only there can the
 * loop variable wrap round: `GridEnds` says when the loop ends all the same.
 */
module GridWalk {
  import opened Words
  import opened Ranges
  import opened Multiples
  import opened ArenaTypes

  datatype Grid = Grid(what: string, bottom: u64, top: u64, page: u64, window: u64, probe: Probe)

  function RunNote(g: Grid): string {
    "inside the " + g.what + ", walked in contiguous windows"
  }

  function RefusalNote(g: Grid, entry: Entry): string {
    "exact placement refused inside the " + g.what + "; " + entry.text
  }

  /** Arguments for which nothing is walked. */
  predicate Degenerate(g: Grid) {
    g.window == 0 || g.page == 0 || g.bottom >= g.top || g.top - g.bottom < g.window
  }

  predicate Usable(g: Grid) {
    g.window > 0 && g.page > 0
  }

  /** The bottom and the window are whole pages. */
  predicate Aligned(g: Grid) {
    Usable(g) && g.bottom % g.page == 0 && g.window % g.page == 0
  }

  // -------------------------------------------------------------------------
  // One turn of the loop
  // -------------------------------------------------------------------------

  datatype OpenRun = Closed | Open(start: u64, end: u64)

  datatype State = State(
    base: u64,
    run: OpenRun,
    available: seq<ClassifiedRange>,
    unavailable: seq<ClassifiedRange>,
    placed: nat,
    heldByProbe: nat,
    heldNoAccess: nat,
    refused: nat,
    skipped: nat)
  {
    function Windows(): nat {
      placed + heldByProbe + heldNoAccess + refused + skipped
    }
  }

  function Start(g: Grid): State {
    State(g.bottom, Closed, [], [], 0, 0, 0, 0, 0)
  }

  function Extend(run: OpenRun, base: u64, end: u64): OpenRun {
    if run.Open? then Open(run.start, end) else Open(base, end)
  }

  /** `close_run`: the open run is recorded up to its end, never past the arena's own ceiling. */
  function Close(g: Grid, s: State): State {
    match s.run
    case Closed => s
    case Open(from, to) =>
      var end := if to > g.top then g.top else to;
      if end <= from then s.(run := Closed)
      else s.(run := Closed, available := s.available + [Measured(from, end, RunNote(g))])
  }

  /** How many further windows a covering entry lets the walk skip. */
  function Jump(g: Grid, base: u64): nat
    requires g.window > 0 && base + g.window < U64_LIMIT
  {
    var entry := g.probe.describe(base);
    var heldEnd := WrapAdd(entry.start, entry.size);
    if entry.size > 0 && heldEnd > base + g.window then (heldEnd - (base + g.window)) / g.window else 0
  }

  lemma JumpStaysBelowEntryEnd(g: Grid, base: u64)
    requires g.window > 0 && base + g.window < U64_LIMIT
    ensures var entry := g.probe.describe(base);
      && base + (Jump(g, base) + 1) * g.window < U64_LIMIT
      && (Jump(g, base) > 0 ==> base + (Jump(g, base) + 1) * g.window <= WrapAdd(entry.start, entry.size))
  {
    var entry := g.probe.describe(base);
    var room := WrapAdd(entry.start, entry.size) - (base + g.window);
    if entry.size > 0 && room > 0 {
      assert room == room / g.window * g.window + room % g.window;
      assert (room / g.window + 1) * g.window == room / g.window * g.window + g.window;
    }
  }

  /** The base of the next window to try. */
  function Resume(g: Grid, base: u64): (r: u64)
    requires g.window > 0 && base + g.window < U64_LIMIT
    ensures r >= base + g.window
  {
    JumpStaysBelowEntryEnd(g, base);
    assert (Jump(g, base) + 1) * g.window == Jump(g, base) * g.window + g.window;
    assert Jump(g, base) * g.window >= 0;
    base + (Jump(g, base) + 1) * g.window
  }

  /** The source's two wrapping additions reach the same place: neither of them wraps. */
  lemma JumpLands(g: Grid, base: u64)
    requires g.window > 0 && base + g.window < U64_LIMIT
    ensures 0 <= Jump(g, base) * g.window < U64_LIMIT
    ensures base + (Jump(g, base) + 1) * g.window == Resume(g, base)
    ensures WrapAdd(WrapAdd(base, Jump(g, base) * g.window), g.window) == Resume(g, base)
    ensures Jump(g, base) == 0 ==> Resume(g, base) == base + g.window
  {
    var jump := Jump(g, base);
    assert Resume(g, base) == base + (jump + 1) * g.window;
    hide Jump, Resume;
    TimesGrows(0, jump, g.window);
    assert (jump + 1) * g.window == jump * g.window + g.window;
  }

  /** The loop ends at this base: its condition fails, or the window at a page boundary would wrap. */
  predicate HaltsAt(g: Grid, b: u64)
    requires g.page > 0
  {
    WrapAdd(b, g.window) > g.top || (b % g.page == 0 && b + g.window >= U64_LIMIT)
  }

  lemma HaltsPastTop(g: Grid, b: u64)
    requires Usable(g)
    ensures b % g.page == 0 ==> (HaltsAt(g, b) <==> b + g.window > g.top)
    ensures b + g.window < U64_LIMIT ==> (HaltsAt(g, b) <==> b + g.window > g.top)
  {
  }

  /** Where nothing wraps, the arguments refused up front are those on which the loop would not take a turn. */
  lemma DegenerateTakesNoTurn(g: Grid)
    requires Usable(g) && g.bottom + g.window < U64_LIMIT
    ensures Degenerate(g) <==> HaltsAt(g, g.bottom)
  {
  }

  /** What a turn does with a window that lies on a page boundary and is therefore asked for. */
  function Ask(g: Grid, s: State): State
    requires g.window > 0 && s.base + g.window <= g.top
  {
    var b, w := s.base, g.window;
    var p, entry := g.probe.place(b, w), g.probe.describe(b);
    if p != Refused then
      var next := s.(base := b + w, run := Extend(s.run, b, b + w));
      if p == Placed then next.(placed := s.placed + 1) else next.(heldByProbe := s.heldByProbe + 1)
    else if entry.covers then
      var resume := Resume(g, b);
      s.(base := resume,
         run := Extend(s.run, b, if resume < g.top then resume else g.top),
         heldNoAccess := s.heldNoAccess + 1,
         skipped := s.skipped + Jump(g, b))
    else
      var closed := Close(g, s);
      closed.(base := b + w,
              refused := s.refused + 1,
              unavailable := s.unavailable + [Measured(b, b + w, RefusalNote(g, entry))])
  }

  /** One turn: a base off the page grid is passed over, and the addition may wrap there. */
  function Advance(g: Grid, s: State): State
    requires Usable(g) && !HaltsAt(g, s.base)
  {
    if s.base % g.page != 0 then s.(base := WrapAdd(s.base, g.window)) else Ask(g, s)
  }

  /** Where a turn leaves the loop variable; nothing but the base matters for that. */
  function NextBase(g: Grid, b: u64): u64
    requires Usable(g) && !HaltsAt(g, b)
  {
    if b % g.page != 0 then WrapAdd(b, g.window)
    else if g.probe.place(b, g.window) == Refused && g.probe.describe(b).covers then Resume(g, b)
    else b + g.window
  }

  lemma AdvanceMovesToNext(g: Grid, s: State)
    requires Usable(g) && !HaltsAt(g, s.base)
    ensures Advance(g, s).base == NextBase(g, s.base)
  {
    hide Resume, Jump;
  }

  /** Standing at `b`, the loop ends within `n` turns. */
  predicate Stops(g: Grid, b: u64, n: nat)
    requires Usable(g)
    decreases n
  {
    HaltsAt(g, b) || (n > 0 && Stops(g, NextBase(g, b), n - 1))
  }

  ghost predicate Ends(g: Grid)
    requires Usable(g)
  {
    exists n: nat :: Stops(g, g.bottom, n)
  }

  /** The state in which a loop that ends within `n` turns leaves everything. */
  function Finish(g: Grid, s: State, n: nat): State
    requires Usable(g)
    decreases n
  {
    if n == 0 || HaltsAt(g, s.base) then Close(g, s) else Finish(g, Advance(g, s), n - 1)
  }

  lemma FinishTurns(g: Grid, s: State, n: nat)
    requires Usable(g) && Stops(g, s.base, n)
    ensures HaltsAt(g, s.base) ==> Finish(g, s, n) == Close(g, s)
    ensures !HaltsAt(g, s.base) ==>
              n > 0 && Stops(g, Advance(g, s).base, n - 1) && Finish(g, s, n) == Finish(g, Advance(g, s), n - 1)
  {
    hide Close, Ask;
    if !HaltsAt(g, s.base) {
      AdvanceMovesToNext(g, s);
    }
  }

  /** A larger bound changes nothing: the result belongs to the loop, not to the bound. */
  lemma {:induction false} FinishIgnoresBound(g: Grid, s: State, n: nat, m: nat)
    requires Usable(g) && Stops(g, s.base, n) && n <= m
    ensures Stops(g, s.base, m) && Finish(g, s, m) == Finish(g, s, n)
    decreases n
  {
    hide Close, Advance;
    FinishTurns(g, s, n);
    if !HaltsAt(g, s.base) {
      AdvanceMovesToNext(g, s);
      FinishIgnoresBound(g, Advance(g, s), n - 1, m - 1);
    }
  }

  lemma CloseChangesTheListOnly(g: Grid, s: State)
    ensures Close(g, s) == s.(run := Closed, available := Close(g, s).available)
    ensures Close(g, s.(refused := s.refused + 1)) == Close(g, s).(refused := s.refused + 1)
  {
  }

  // -------------------------------------------------------------------------
  // The loop in 64-bit arithmetic
  // -------------------------------------------------------------------------

  class GridWalker {
    const g: Grid

    var inRun: bool
    var runStart: u64
    var lastWindowEnd: u64
    var available: seq<ClassifiedRange>
    var unavailable: seq<ClassifiedRange>
    var placed: nat
    var heldByProbe: nat
    var heldNoAccess: nat
    var refused: nat
    var skipped: nat

    constructor (g: Grid)
      ensures this.g == g
      ensures At(g.bottom) == Start(g)
    {
      this.g := g;
      inRun, runStart, lastWindowEnd := false, 0, 0;
      available, unavailable := [], [];
      placed, heldByProbe, heldNoAccess, refused, skipped := 0, 0, 0, 0, 0;
    }

    /** The walk's state when the loop variable stands at `base`. */
    function At(base: u64): State
      reads this
    {
      State(base, if inRun then Open(runStart, lastWindowEnd) else Closed,
            available, unavailable, placed, heldByProbe, heldNoAccess, refused, skipped)
    }

    method CloseRun(end: u64)
      requires end == lastWindowEnd
      modifies this
      ensures forall base :: At(base) == Close(g, old(At(base)))
      ensures !inRun
    {
      if !inRun {
        return;
      }
      inRun := false;
      var limit := if end > g.top then g.top else end;
      if limit <= runStart {
        return;
      }
      available := available + [Measured(runStart, limit, RunNote(g))];
    }

    method Touch(base: u64, end: u64)
      modifies this
      ensures old(inRun) ==> runStart == old(runStart)
      ensures !old(inRun) ==> runStart == base
      ensures inRun && lastWindowEnd == end
      ensures unchanged(this`available) && unchanged(this`unavailable) && unchanged(this`placed)
      ensures unchanged(this`heldByProbe) && unchanged(this`heldNoAccess) && unchanged(this`refused)
              && unchanged(this`skipped)
    {
      if !inRun {
        runStart := base;
        inRun := true;
      }
      lastWindowEnd := end;
    }

    /** A refusal that a region of the probe's own covers: held, and the rest of the region is skipped. */
    method HoldEntry(base: u64, entry: Entry) returns (next: u64)
      requires g.window > 0 && base + g.window <= g.top
      requires g.probe.place(base, g.window) == Refused && entry == g.probe.describe(base) && entry.covers
      modifies this
      ensures At(next) == Ask(g, old(At(base)))
    {
      hide Close, Resume, WrapAdd;
      var w := g.window;
      heldNoAccess := heldNoAccess + 1;
      JumpLands(g, base);
      var end: u64 := base + w;
      next := base + w;
      var heldEnd := WrapAdd(entry.start, entry.size);
      if entry.size > 0 && heldEnd > base + w {
        var jump := (heldEnd - (base + w)) / w;
        assert jump == Jump(g, base);
        hide Jump;
        skipped := skipped + jump;
        var reached: u64 := base + (jump + 1) * w;
        end := if reached < g.top then reached else g.top;
        next := WrapAdd(WrapAdd(base, jump * w), w);
      }
      Touch(base, end);
    }

    /** One turn on a window that does not wrap; the result is the loop variable after its increment. */
    method Turn(base: u64) returns (next: u64)
      requires g.window > 0 && base + g.window <= g.top
      modifies this
      ensures At(next) == Ask(g, old(At(base)))
    {
      hide Close, Resume, Jump;
      var w := g.window;
      var p := g.probe.place(base, w);
      if p != Refused {
        if p == Placed {
          placed := placed + 1;
        } else {
          heldByProbe := heldByProbe + 1;
        }
        Touch(base, base + w);
        return base + w;
      }
      var entry := g.probe.describe(base);
      if entry.covers {
        next := HoldEntry(base, entry);
        return;
      }
      refused := refused + 1;
      CloseChangesTheListOnly(g, old(At(base)));
      CloseRun(lastWindowEnd);
      assert At(base) == Close(g, old(At(base)).(refused := old(refused) + 1));
      unavailable := unavailable + [Measured(base, base + w, RefusalNote(g, entry))];
      return base + w;
    }

    /** The loop, for arguments on which it ends. */
    method Walk(ghost n: nat)
      requires Usable(g) && Stops(g, g.bottom, n) && At(g.bottom) == Start(g)
      modifies this
      ensures exists base :: At(base) == Finish(g, Start(g), n)
    {
      hide Ask, Close, Resume, Jump, Finish, Stops;
      var base := g.bottom;
      ghost var left := n;
      while WrapAdd(base, g.window) <= g.top
        invariant 0 <= base < U64_LIMIT && Stops(g, base, left)
        invariant Finish(g, At(base), left) == Finish(g, Start(g), n)
        decreases left
      {
        FinishTurns(g, At(base), left);
        if base % g.page != 0 {
          base := WrapAdd(base, g.window);
          left := left - 1;
          continue;
        }
        var window := FromBaseSize(base, g.window);
        if window.None? {
          break;
        }
        base := Turn(base);
        left := left - 1;
      }
      FinishTurns(g, At(base), left);
      CloseRun(lastWindowEnd);
      assert At(base) == Finish(g, Start(g), n);
    }
  }

  /** Any bound `n` on the turns will do: `GridEnds` says for which arguments there is one. */
  method WalkArena(g: Grid, ghost n: nat) returns (out: ArenaWalk)
    requires Degenerate(g) || Stops(g, g.bottom, n)
    ensures Degenerate(g) ==> out == EMPTY_WALK
    ensures !Degenerate(g) ==> out == Report(Finish(g, Start(g), n))
  {
    if Degenerate(g) {
      return EMPTY_WALK;
    }
    var walker := new GridWalker(g);
    walker.Walk(n);
    out := ArenaWalk(walker.available, walker.unavailable, 0, false, walker.placed, walker.heldByProbe,
                     walker.refused, walker.skipped, walker.heldNoAccess);
  }

  function Report(s: State): ArenaWalk {
    ArenaWalk(s.available, s.unavailable, 0, false, s.placed, s.heldByProbe, s.refused, s.skipped, s.heldNoAccess)
  }
}
