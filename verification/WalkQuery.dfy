/** From a finished adaptive walk to the answers a profile gives: neither side may guess. */
module WalkQuery {
  import opened Evidence
  import opened Ranges
  import opened AdaptiveWalk
  import opened RangeStore

  /** Some page the range touches is refused when it is tried alone. */
  ghost predicate TouchesDenied(arena: Arena, r: AddressRange)
    requires Valid(arena)
  {
    exists a :: InBoth(arena, r, a) && ClassOf(arena, PageOf(arena, a)) != Usable
  }

  predicate InBoth(arena: Arena, r: AddressRange, a: int)
    requires Valid(arena)
  {
    r.HasAddress(a) && arena.bottom <= a < Address(arena, arena.pages)
  }

  /** The profile holds the walk's two lists, and its outer bounds do not cut into the arena. */
  ghost predicate Holds(facts: RangeFacts, arena: Arena, lists: Lists)
    requires Valid(arena)
  {
    && facts.available == lists.0 && facts.unavailable == lists.1
    && (facts.minMapAddress.Known? ==> facts.minMapAddress.value <= arena.bottom)
    && (facts.maxUserAddress.Known? ==> Address(arena, arena.pages) <= facts.maxUserAddress.value)
  }

  ghost predicate Inside(arena: Arena, r: AddressRange)
    requires Valid(arena)
  {
    !r.Empty() && arena.bottom <= r.start && r.end <= Address(arena, arena.pages)
  }

  /** What the lists say about one address of the arena. */
  lemma AddressAnswer(arena: Arena, lists: Lists, a: int)
    requires Valid(arena) && Describes(arena, arena.pages, lists)
    requires arena.bottom <= a < Address(arena, arena.pages)
    ensures Covers(lists.0, a) <==> ClassOf(arena, PageOf(arena, a)) == Usable
    ensures Covers(lists.1, a) <==> ClassOf(arena, PageOf(arena, a)) != Usable
    ensures forall note :: Says(lists.0, a, note) ==> note == AvailableNote(arena.what)
  {
    hide Says, Covers, Runs, ClassOf, Address, AvailableNote, Valid;
    var k := PageOf(arena, a);
    assert DescribesPage(arena, k, lists);
    SaysSomething(lists.0, a);
    SaysSomething(lists.1, a);
    if ClassOf(arena, k) == Usable {
      assert Says(lists.0, a, AvailableNote(arena.what));
    } else {
      assert Says(lists.1, a, ClassOf(arena, k).note);
    }
  }

  /** A conflict is a covered address of the range. */
  lemma ConflictIsCovered(arena: Arena, lists: Lists, r: AddressRange)
    requires Valid(arena) && Describes(arena, arena.pages, lists) && Inside(arena, r)
    ensures Conflicts(lists.1, r) <==> exists a :: InBoth(arena, r, a) && Covers(lists.1, a)
  {
    hide DescribesPage, Address, Valid;
    if k :| 0 <= k < |lists.1| && lists.1[k].range.Intersects(r) {
      var u := lists.1[k].range;
      var a := if u.start < r.start then r.start else u.start;
      assert u.HasAddress(a) && Covers(lists.1, a) && InBoth(arena, r, a);
    }
    if a :| InBoth(arena, r, a) && Covers(lists.1, a) {
      var k :| 0 <= k < |lists.1| && lists.1[k].range.HasAddress(a);
      assert lists.1[k].range.Intersects(r);
    }
  }

  /** Available ranges are maximal: a run of usable addresses never crosses from one into the next. */
  lemma UsableRunIsOneRange(arena: Arena, lists: Lists, r: AddressRange)
    requires Valid(arena) && Describes(arena, arena.pages, lists) && Inside(arena, r)
    requires forall a :: InBoth(arena, r, a) ==> ClassOf(arena, PageOf(arena, a)) == Usable
    ensures Established(lists.0, r)
  {
    hide Address, ClassOf, AvailableNote, DescribesPage, SilentOutside, Valid;
    AddressAnswer(arena, lists, r.start);
    assert InBoth(arena, r, r.start);
    var j :| 0 <= j < |lists.0| && lists.0[j].range.HasAddress(r.start);
    var edge := lists.0[j].range.end;
    if edge < r.end {
      AddressAnswer(arena, lists, edge);
      assert InBoth(arena, r, edge);
      var k :| 0 <= k < |lists.0| && lists.0[k].range.HasAddress(edge);
      NeighboursAgree(arena, lists, j, k);
      assert false;
    }
    assert lists.0[j].range.Contains(r);
  }

  lemma NeighboursAgree(arena: Arena, lists: Lists, j: nat, k: nat)
    requires Valid(arena) && Describes(arena, arena.pages, lists)
    requires j < |lists.0| && k < |lists.0|
    ensures !lists.0[k].range.HasAddress(lists.0[j].range.end)
  {
    hide Address, ClassOf, AvailableNote, DescribesPage, Valid;
    var edge := lists.0[j].range.end;
    if lists.0[k].range.HasAddress(edge) {
      assert k > j;
      assert lists.0[j].range.end <= lists.0[j + 1].range.start < lists.0[j + 1].range.end;
      assert k == j + 1 && lists.0[k].range.start == edge;
      var a, b: int := edge - 1, edge;
      assert lists.0[j].range.HasAddress(a) && Says(lists.0, a, lists.0[j].note);
      assert lists.0[k].range.HasAddress(b) && Says(lists.0, b, lists.0[k].note);
      AddressAnswer(arena, lists, a);
      AddressAnswer(arena, lists, b);
      assert false;
    }
  }

  /**
   * Querying any non-empty range inside a walked arena: UNSUPPORTED exactly
   * when it touches a refused page, SUPPORTED exactly when it touches none,
   * and never UNKNOWN.
   */
  lemma WalkThenQueryIsExact(arena: Arena, lists: Lists, facts: RangeFacts, r: AddressRange)
    requires Valid(arena) && Describes(arena, arena.pages, lists)
    requires Holds(facts, arena, lists) && Inside(arena, r)
    ensures Level(facts, r) == Unsupported <==> TouchesDenied(arena, r)
    ensures Level(facts, r) == Supported <==> !TouchesDenied(arena, r)
  {
    hide Describes, ClassOf, Established, Conflicts, Covers;
    ConflictIsCovered(arena, lists, r);
    forall a | InBoth(arena, r, a)
      ensures Covers(lists.1, a) <==> ClassOf(arena, PageOf(arena, a)) != Usable
    {
      AddressAnswer(arena, lists, a);
    }
    if !TouchesDenied(arena, r) {
      UsableRunIsOneRange(arena, lists, r);
    }
  }

  /** The same for the lists an unexhausted adaptive walk leaves when its granted placements are clean. */
  lemma AdaptiveWalkThenQuery(arena: Arena, window: nat, facts: RangeFacts, r: AddressRange)
    requires Valid(arena) && 1 <= window && CleanTiles(arena, window, 0)
    requires Holds(facts, arena, Tiles(arena, window, 0, NOTHING).Lists()) && Inside(arena, r)
    ensures Level(facts, r) == if TouchesDenied(arena, r) then Unsupported else Supported
  {
    hide Describes, CleanTiles, Tiles, TouchesDenied, Valid, Holds, Inside;
    CleanWalkDescribes(arena, window);
    WalkThenQueryIsExact(arena, Tiles(arena, window, 0, NOTHING).Lists(), facts, r);
  }
}
