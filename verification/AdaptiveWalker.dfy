/** The source's adaptive walk: a recursion that mutates one result under a hard attempt budget. */
module AdaptiveWalker {
  import opened Words
  import opened Multiples
  import opened ArenaTypes
  import opened Ranges
  import opened AdaptiveWalk

  function Report(w: Tally): ArenaWalk {
    ArenaWalk(w.available, w.unavailable, w.attempts, false, w.placed, w.heldByProbe, w.refused, 0, w.heldNoAccess)
  }

  lemma FullSpendsAttempts(arena: Arena, i: nat, n: nat, w: Tally)
    requires Valid(arena) && 1 <= n && i + n <= arena.pages
    ensures Full(arena, i, n, w).attempts > w.attempts
  {
    hide Full, Valid;
    FullCost(arena, i, n, w);
  }

  lemma FullUnfolds(arena: Arena, i: nat, n: nat, w: Tally)
    requires Valid(arena) && 1 <= n && i + n <= arena.pages
    ensures Full(arena, i, n, w) == (
              var tried, p := w.(attempts := w.attempts + 1), PlaceAt(arena, i, n);
              if p == Placed then
                tried.(placed := w.placed + 1,
                       available := Append(w.available, Address(arena, i), Address(arena, i + n),
                           AvailableNote(arena.what)))
              else if n > 1 then Full(arena, i + n / 2, n - n / 2, Full(arena, i, n / 2, tried))
              else Leaf(arena, i, p, tried))
  {
    hide Valid, Address, Append, Leaf, AvailableNote;
  }

  lemma TilesSpendAttempts(arena: Arena, window: nat, i: nat, w: Tally)
    requires Valid(arena) && 1 <= window && i <= arena.pages
    ensures Tiles(arena, window, i, w).attempts >= w.attempts
  {
    hide Tiles, Valid;
    TilesCost(arena, window, i, w);
  }

  /** Halving in bytes is halving in pages. */
  lemma HalfTile(arena: Arena, i: nat, n: nat, size: u64)
    requires Valid(arena) && 1 <= n && i + n <= arena.pages && size == Bytes(arena, n)
    ensures arena.page > 0 && (size > arena.page <==> n > 1)
    ensures size / arena.page == n
    ensures n / 2 * arena.page == Bytes(arena, n / 2)
    ensures size - Bytes(arena, n / 2) == Bytes(arena, n - n / 2)
    ensures Address(arena, i) + Bytes(arena, n / 2) == Address(arena, i + n / 2)
    ensures Address(arena, i) + size == Address(arena, i + n)
  {
    QuotientOfProduct(n, arena.page);
    AddressGrows(arena, i, i + n / 2);
    AddressGrows(arena, i, i + n);
    assert n * arena.page == n / 2 * arena.page + (n - n / 2) * arena.page;
    if n > 1 {
      TimesGrows(2, n, arena.page);
    }
  }

  class Walker {
    const what: string
    const page: u64
    const maxAttempts: nat
    const probe: Probe

    var available: seq<ClassifiedRange>
    var unavailable: seq<ClassifiedRange>
    var attempts: nat
    var budgetExhausted: bool
    var placed: nat
    var heldByProbe: nat
    var refused: nat
    var heldNoAccess: nat

    constructor (what: string, page: u64, maxAttempts: nat, probe: Probe)
      ensures this.what == what && this.page == page && this.maxAttempts == maxAttempts && this.probe == probe
      ensures Current() == NOTHING && !budgetExhausted
    {
      this.what, this.page, this.maxAttempts, this.probe := what, page, maxAttempts, probe;
      available, unavailable := [], [];
      attempts, placed, heldByProbe, refused, heldNoAccess := 0, 0, 0, 0, 0;
      budgetExhausted := false;
    }

    function Current(): Tally
      reads this
    {
      Tally(available, unavailable, attempts, placed, heldByProbe, heldNoAccess, refused)
    }

    ghost predicate Walks(arena: Arena)
      reads this
    {
      arena.what == what && arena.page == page && arena.probe == probe
    }

    method VisitPage(base: u64, placement: Placement, ghost arena: Arena, ghost i: nat)
      requires Walks(arena) && Valid(arena) && i < arena.pages && base == Address(arena, i)
      requires placement != Placed
      modifies this
      ensures Current() == Leaf(arena, i, placement, old(Current()))
      ensures budgetExhausted == old(budgetExhausted) && attempts == old(attempts)
    {
      hide Address, Append, AvailableNote, RefusedNote;
      HalfTile(arena, i, 1, page);
      var end: u64 := base + page;
      if placement == HeldByProbe {
        heldByProbe := heldByProbe + 1;
        available := Append(available, base, end, AvailableNote(what));
        return;
      }
      var entry := probe.describe(base);
      if entry.covers {
        heldNoAccess := heldNoAccess + 1;
        available := Append(available, base, end, AvailableNote(what));
        return;
      }
      refused := refused + 1;
      unavailable := Append(unavailable, base, end, RefusedNote(what, entry));
    }

    /**
     * Visits one tile. With enough budget the result is the full subdivision;
     * otherwise the budget is spent to the last attempt and marked exhausted.
     */
    method Visit(base: u64, size: u64, ghost arena: Arena, ghost i: nat, ghost n: nat)
      requires Walks(arena) && Valid(arena) && 1 <= n && i + n <= arena.pages
      requires base == Address(arena, i) && size == Bytes(arena, n)
      requires !budgetExhausted && attempts <= maxAttempts
      modifies this
      decreases n
      ensures budgetExhausted <==> Full(arena, i, n, old(Current())).attempts > maxAttempts
      ensures budgetExhausted ==> attempts == maxAttempts
      ensures !budgetExhausted ==> Current() == Full(arena, i, n, old(Current()))
    {
      hide Address, Bytes, Append, Leaf, AvailableNote, RefusedNote, Valid, Full;
      FullUnfolds(arena, i, n, Current());
      FullSpendsAttempts(arena, i, n, Current());
      HalfTile(arena, i, n, size);
      if attempts >= maxAttempts {
        budgetExhausted := true;
        return;
      }
      attempts := attempts + 1;
      var placement := probe.place(base, size);
      if placement == Placed {
        placed := placed + 1;
        available := Append(available, base, base + size, AvailableNote(what));
        return;
      }
      if size > page {
        var pageCount := size / page;
        var leftSize: u64 := pageCount / 2 * page;
        ghost var tried := Current();
        Visit(base, leftSize, arena, i, n / 2);
        if !budgetExhausted {
          Visit(base + leftSize, size - leftSize, arena, i + n / 2, n - n / 2);
        } else {
          FullSpendsAttempts(arena, i + n / 2, n - n / 2, Full(arena, i, n / 2, tried));
        }
        return;
      }
      VisitPage(base, placement, arena, i);
    }

    /** The top-level loop: tiles of at most `maxWindow` bytes until the arena or the budget ends. */
    method VisitTiles(bottom: u64, top: u64, maxWindow: u64, ghost arena: Arena, ghost window: nat)
      requires Walks(arena) && Valid(arena) && 1 <= window && window * page == maxWindow
      requires bottom == Address(arena, 0) && top == Address(arena, arena.pages)
      requires !budgetExhausted && Current() == NOTHING && 0 < maxAttempts
      modifies this
      ensures budgetExhausted <==> Tiles(arena, window, 0, NOTHING).attempts > maxAttempts
      ensures budgetExhausted ==> attempts == maxAttempts
      ensures !budgetExhausted ==> Current() == Tiles(arena, window, 0, NOTHING)
    {
      hide Address, Bytes, Full, Valid;
      ghost var full := Tiles(arena, window, 0, NOTHING);
      var base := bottom;
      ghost var i := 0;
      while base < top && !budgetExhausted
        invariant i <= arena.pages && base == Address(arena, i)
        invariant attempts <= maxAttempts
        invariant !budgetExhausted ==> Tiles(arena, window, i, Current()) == full
        invariant budgetExhausted ==> full.attempts > maxAttempts && attempts == maxAttempts
        decreases arena.pages - i, !budgetExhausted
      {
        ghost var before := Current();
        ghost var n := TileSize(arena, window, i);
        TileBytes(arena, i, window, maxWindow);
        var remaining := top - base;
        var size: u64 := if remaining < maxWindow then remaining else maxWindow;
        Visit(base, size, arena, i, n);
        TilesSpendAttempts(arena, window, i + n, Full(arena, i, n, before));
        base := base + size;
        i := i + n;
      }
      assert i < arena.pages ==> Address(arena, i) < top by { BottomAddress(arena); }
    }
  }

  /** The arguments the walk refuses: it returns an empty, unexhausted result. */
  predicate Rejected(bottom: u64, top: u64, page: u64, maxWindow: u64, probe: Probe) {
    || page == 0 || maxWindow == 0 || bottom >= top
    || bottom % page != 0 || top % page != 0 || maxWindow % page != 0 || !probe.callable
  }

  function ArenaOf(what: string, bottom: u64, top: u64, page: u64, probe: Probe): (arena: Arena)
    requires page > 0 && bottom < top && bottom % page == 0 && top % page == 0
    ensures Valid(arena) && arena.pages > 0
    ensures Address(arena, arena.pages) == top
  {
    WholePages(bottom, top, page);
    Arena(what, bottom, page, (top - bottom) / page, probe)
  }

  lemma WholePages(bottom: u64, top: u64, page: u64)
    requires page > 0 && bottom < top && bottom % page == 0 && top % page == 0
    ensures (top - bottom) / page > 0 && (top - bottom) / page * page == top - bottom
  {
    var q := top / page - bottom / page;
    assert top == top / page * page && bottom == bottom / page * page;
    assert q * page == top - bottom;
    if q <= 0 {
      TimesGrows(q, 0, page);
    }
    QuotientOfProduct(q, page);
  }

  /** One tile's size in bytes is the smaller of the window and what is left. */
  lemma TileBytes(arena: Arena, i: nat, window: nat, maxWindow: u64)
    requires Valid(arena) && i < arena.pages && 1 <= window && window * arena.page == maxWindow
    ensures var top, base, n := Address(arena, arena.pages), Address(arena, i), TileSize(arena, window, i);
      Bytes(arena, n) == (if top - base < maxWindow then top - base else maxWindow) &&
      base + Bytes(arena, n) == Address(arena, i + n)
  {
    AddressGrows(arena, i, arena.pages);
    AddressGrows(arena, i, i + TileSize(arena, window, i));
    TimesGrows(window, arena.pages - i, arena.page);
    TimesGrows(arena.pages - i, window, arena.page);
  }

  lemma WholeWindow(maxWindow: u64, page: u64)
    requires page > 0 && maxWindow > 0 && maxWindow % page == 0
    ensures maxWindow / page >= 1 && maxWindow / page * page == maxWindow
  {
  }

  lemma BottomAddress(arena: Arena)
    requires Valid(arena)
    ensures Address(arena, 0) == arena.bottom
    ensures forall i :: 0 <= i < arena.pages ==> Address(arena, i) < Address(arena, arena.pages)
  {
    forall i | 0 <= i < arena.pages ensures Address(arena, i) < Address(arena, arena.pages) {
      AddressStrict(arena, i, arena.pages);
    }
  }

  lemma TilesCostSomething(arena: Arena, window: nat)
    requires Valid(arena) && 1 <= window && arena.pages > 0
    ensures Tiles(arena, window, 0, NOTHING).attempts > 0
  {
    hide Full;
    var n := TileSize(arena, window, 0);
    FullSpendsAttempts(arena, 0, n, NOTHING);
    TilesSpendAttempts(arena, window, n, Full(arena, 0, n, NOTHING));
  }

  method WalkArenaAdaptive(what: string, bottom: u64, top: u64, page: u64, maxWindow: u64,
                           maxAttempts: nat, probe: Probe) returns (out: ArenaWalk)
    ensures Rejected(bottom, top, page, maxWindow, probe) ==> out == EMPTY_WALK
    ensures !Rejected(bottom, top, page, maxWindow, probe) ==>
              var full := Tiles(ArenaOf(what, bottom, top, page, probe), maxWindow / page, 0, NOTHING);
              && (out.budgetExhausted <==> full.attempts > maxAttempts)
              && (out.budgetExhausted ==> out.attempts == maxAttempts && out.available == [] && out.unavailable == [])
              && (!out.budgetExhausted ==> out == Report(full))
  {
    if page == 0 || maxWindow == 0 || bottom >= top {
      return EMPTY_WALK;
    }
    if bottom % page != 0 || top % page != 0 || maxWindow % page != 0 || !probe.callable {
      return EMPTY_WALK;
    }
    ghost var arena := ArenaOf(what, bottom, top, page, probe);
    ghost var window := maxWindow / page;
    assert window >= 1 && window * page == maxWindow by { WholeWindow(maxWindow, page); }
    ghost var full := Tiles(arena, window, 0, NOTHING);
    if maxAttempts == 0 {
      TilesCostSomething(arena, window);
      return EMPTY_WALK.(budgetExhausted := true);
    }
    hide Address, Bytes, Full, Tiles, Valid, ArenaOf;
    BottomAddress(arena);
    var walker := new Walker(what, page, maxAttempts, probe);
    walker.VisitTiles(bottom, top, maxWindow, arena, window);
    if walker.budgetExhausted {
      out := ArenaWalk([], [], walker.attempts, true, walker.placed, walker.heldByProbe, walker.refused, 0,
          walker.heldNoAccess);
    } else {
      out := Report(walker.Current());
    }
  }
}
