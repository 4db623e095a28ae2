/**
 * The adaptive arena walk: large placements are tried first, and a tile that
 * is held or refused is halved until it is one page.
 *
 * Pages are numbered from the bottom of the arena. `Full` is the subdivision
 * with no budget, `Paged` the walk one page at a time, and `Walker` the
 * source's recursion with its attempt budget.
 */
module AdaptiveWalk {
  import opened Words
  import opened Multiples
  import opened ArenaTypes
  import opened Ranges

  /** One arena: `pages` pages of `page` bytes from `bottom`. */
  datatype Arena = Arena(what: string, bottom: u64, page: u64, pages: nat, probe: Probe)

  predicate Valid(arena: Arena) {
    arena.page > 0 && arena.bottom + arena.pages * arena.page < U64_LIMIT
  }

  /** The size of `n` pages. */
  function Bytes(arena: Arena, n: nat): (r: u64)
    requires Valid(arena) && n <= arena.pages
    ensures n > 0 ==> r >= arena.page
  {
    BytesFit(arena, n);
    n * arena.page
  }

  lemma BytesFit(arena: Arena, n: nat)
    requires Valid(arena) && n <= arena.pages
    ensures 0 <= n * arena.page <= arena.pages * arena.page
    ensures n > 0 ==> n * arena.page >= arena.page
  {
    assert arena.pages * arena.page == n * arena.page + (arena.pages - n) * arena.page;
  }

  /** The address at which page `i` starts. */
  function Address(arena: Arena, i: nat): (r: u64)
    requires Valid(arena) && i <= arena.pages
    ensures r >= arena.bottom
  {
    BytesFit(arena, i);
    arena.bottom + i * arena.page
  }

  lemma AddressGrows(arena: Arena, i: nat, j: nat)
    requires Valid(arena) && i <= j <= arena.pages
    ensures Address(arena, j) == Address(arena, i) + Bytes(arena, j - i)
  {
    assert j * arena.page == i * arena.page + (j - i) * arena.page;
  }

  // -------------------------------------------------------------------------
  // Range lists
  // -------------------------------------------------------------------------

  function AvailableNote(what: string): string {
    "inside the " + what +
    ", established by exact placements with adaptive subdivision down to page granularity"
  }

  function RefusedNote(what: string, entry: Entry): string {
    "exact page placement refused inside the " + what + "; " +
    (if entry.text == "" then "the platform reported a structural refusal" else entry.text)
  }

  /** The note of a refusal ends in the platform's own words, where it gives any. */
  lemma RefusedNoteQuotes(what: string, entry: Entry)
    ensures var note, words := RefusedNote(what, entry),
                               if entry.text != "" then entry.text else "the platform reported a structural refusal";
      |note| > |words| && note[|note| - |words|..] == words
  {
  }

  /** Extends the last range when it touches and carries the same note, else adds a new one. */
  function Append(ranges: seq<ClassifiedRange>, start: u64, end: u64, note: string): seq<ClassifiedRange> {
    var n := |ranges|;
    if start >= end then
      ranges
    else if n != 0 && ranges[n - 1].range.end == start && ranges[n - 1].note == note then
      ranges[..n - 1] + [ranges[n - 1].(range := AddressRange(ranges[n - 1].range.start, end))]
    else
      ranges + [Measured(start, end, note)]
  }

  lemma AppendInTwoSteps(ranges: seq<ClassifiedRange>, start: u64, mid: u64, end: u64, note: string)
    requires start < mid < end
    ensures Append(Append(ranges, start, mid, note), mid, end, note) == Append(ranges, start, end, note)
  {
    var n := |ranges|;
    var once := Append(ranges, start, mid, note);
    if n != 0 && ranges[n - 1].range.end == start && ranges[n - 1].note == note {
      assert once[..n - 1] == ranges[..n - 1];
    } else {
      assert once[..n] == ranges;
    }
  }

  // -------------------------------------------------------------------------
  // The subdivision without a budget
  // -------------------------------------------------------------------------

  datatype Tally = Tally(
    available: seq<ClassifiedRange>,
    unavailable: seq<ClassifiedRange>,
    attempts: nat,
    placed: nat,
    heldByProbe: nat,
    heldNoAccess: nat,
    refused: nat)
  {
    function Leaves(): nat {
      placed + heldByProbe + heldNoAccess + refused
    }

    function Lists(): (seq<ClassifiedRange>, seq<ClassifiedRange>) {
      (available, unavailable)
    }
  }

  const NOTHING := Tally([], [], 0, 0, 0, 0, 0)

  /** Page `i` alone was not placed outright: its placement is `p`. */
  function Leaf(arena: Arena, i: nat, p: Placement, w: Tally): Tally
    requires Valid(arena) && i < arena.pages
  {
    var from, to := Address(arena, i), Address(arena, i + 1);
    var entry := arena.probe.describe(from);
    if p == Refused && !entry.covers then
      w.(refused := w.refused + 1,
         unavailable := Append(w.unavailable, from, to, RefusedNote(arena.what, entry)))
    else
      var grown := w.(available := Append(w.available, from, to, AvailableNote(arena.what)));
      if p == HeldByProbe then grown.(heldByProbe := w.heldByProbe + 1)
      else grown.(heldNoAccess := w.heldNoAccess + 1)
  }

  function PlaceAt(arena: Arena, i: nat, n: nat): Placement
    requires Valid(arena) && i + n <= arena.pages
  {
    arena.probe.place(Address(arena, i), Bytes(arena, n))
  }

  function Full(arena: Arena, i: nat, n: nat, w: Tally): Tally
    requires Valid(arena) && 1 <= n && i + n <= arena.pages
    decreases n
  {
    var tried := w.(attempts := w.attempts + 1);
    var p := PlaceAt(arena, i, n);
    if p == Placed then
      tried.(placed := w.placed + 1,
             available := Append(w.available, Address(arena, i), Address(arena, i + n), AvailableNote(arena.what)))
    else if n > 1 then
      Full(arena, i + n / 2, n - n / 2, Full(arena, i, n / 2, tried))
    else
      Leaf(arena, i, p, tried)
  }

  /** Tiles of at most `window` pages, left to right from page `i`. */
  function Tiles(arena: Arena, window: nat, i: nat, w: Tally): Tally
    requires Valid(arena) && 1 <= window && i <= arena.pages
    decreases arena.pages - i
  {
    if i == arena.pages then w
    else
      var n := TileSize(arena, window, i);
      Tiles(arena, window, i + n, Full(arena, i, n, w))
  }

  function TileSize(arena: Arena, window: nat, i: nat): (n: nat)
    requires 1 <= window && i < arena.pages
    ensures 1 <= n <= window && i + n <= arena.pages
  {
    if arena.pages - i < window then arena.pages - i else window
  }

  function TileCount(arena: Arena, window: nat, i: nat): nat
    requires 1 <= window && i <= arena.pages
    decreases arena.pages - i
  {
    if i == arena.pages then 0 else 1 + TileCount(arena, window, i + TileSize(arena, window, i))
  }

  // -------------------------------------------------------------------------
  // Budget accounting
  // -------------------------------------------------------------------------

  lemma {:induction false} FullCost(arena: Arena, i: nat, n: nat, w: Tally)
    requires Valid(arena) && 1 <= n && i + n <= arena.pages
    ensures var r := Full(arena, i, n, w);
      && w.Leaves() < r.Leaves()
      && r.attempts - w.attempts == 2 * (r.Leaves() - w.Leaves()) - 1
      && r.attempts - w.attempts <= 2 * n - 1
    decreases n
  {
    hide Valid, Address, Bytes, Append, AvailableNote, RefusedNote, PlaceAt;
    if PlaceAt(arena, i, n) != Placed && n > 1 {
      var tried := w.(attempts := w.attempts + 1);
      FullCost(arena, i, n / 2, tried);
      FullCost(arena, i + n / 2, n - n / 2, Full(arena, i, n / 2, tried));
    }
  }

  /** Attempts are twice the leaves less one per top-level tile, and never more than two per page. */
  lemma {:induction false} TilesCost(arena: Arena, window: nat, i: nat, w: Tally)
    requires Valid(arena) && 1 <= window && i <= arena.pages
    ensures var r := Tiles(arena, window, i, w);
      && r.Leaves() - w.Leaves() >= TileCount(arena, window, i)
      && r.attempts - w.attempts == 2 * (r.Leaves() - w.Leaves()) - TileCount(arena, window, i)
      && r.attempts - w.attempts <= 2 * (arena.pages - i) - TileCount(arena, window, i)
    decreases arena.pages - i
  {
    hide Valid, Full;
    if i < arena.pages {
      var n := TileSize(arena, window, i);
      FullCost(arena, i, n, w);
      TilesCost(arena, window, i + n, Full(arena, i, n, w));
    }
  }

  // -------------------------------------------------------------------------
  // The page-by-page walk
  // -------------------------------------------------------------------------

  /** What one page answers when it is tried alone. */
  datatype PageClass = Usable | Denied(note: string)

  function ClassOf(arena: Arena, i: nat): PageClass
    requires Valid(arena) && i < arena.pages
  {
    var entry := arena.probe.describe(Address(arena, i));
    if PlaceAt(arena, i, 1) == Refused && !entry.covers then Denied(RefusedNote(arena.what, entry)) else Usable
  }

  type Lists = (seq<ClassifiedRange>, seq<ClassifiedRange>)

  function AddPage(arena: Arena, i: nat, lists: Lists): Lists
    requires Valid(arena) && i < arena.pages
  {
    var from, to := Address(arena, i), Address(arena, i + 1);
    match ClassOf(arena, i)
    case Usable => (Append(lists.0, from, to, AvailableNote(arena.what)), lists.1)
    case Denied(note) => (lists.0, Append(lists.1, from, to, note))
  }

  /** Pages `i .. i + n`, one at a time. */
  function Paged(arena: Arena, i: nat, n: nat, lists: Lists): Lists
    requires Valid(arena) && i + n <= arena.pages
    decreases n
  {
    if n == 0 then lists else Paged(arena, i + 1, n - 1, AddPage(arena, i, lists))
  }

  lemma {:induction false} PagedInTwoSteps(arena: Arena, i: nat, m: nat, n: nat, lists: Lists)
    requires Valid(arena) && i + m + n <= arena.pages
    ensures Paged(arena, i + m, n, Paged(arena, i, m, lists)) == Paged(arena, i, m + n, lists)
    decreases m
  {
    hide Valid, AddPage;
    if m == 0 {
    } else {
      PagedInTwoSteps(arena, i + 1, m - 1, n, AddPage(arena, i, lists));
    }
  }

  lemma AddressStrict(arena: Arena, i: nat, j: nat)
    requires Valid(arena) && i < j <= arena.pages
    ensures Address(arena, i) < Address(arena, j)
  {
    AddressGrows(arena, i, j);
  }

  lemma {:induction false} UsablePages(arena: Arena, i: nat, n: nat, lists: Lists)
    requires Valid(arena) && 1 <= n && i + n <= arena.pages
    requires forall k :: i <= k < i + n ==> ClassOf(arena, k) == Usable
    ensures Paged(arena, i, n, lists) ==
            (Append(lists.0, Address(arena, i), Address(arena, i + n), AvailableNote(arena.what)), lists.1)
    decreases n
  {
    hide Valid, Address, Append, ClassOf, AvailableNote;
    if n == 1 {
      assert Paged(arena, i + 1, 0, AddPage(arena, i, lists)) == AddPage(arena, i, lists);
    } else {
      UsablePages(arena, i + 1, n - 1, AddPage(arena, i, lists));
      AddressStrict(arena, i, i + 1);
      AddressStrict(arena, i + 1, i + n);
      AppendInTwoSteps(lists.0, Address(arena, i), Address(arena, i + 1), Address(arena, i + n),
          AvailableNote(arena.what));
    }
  }

  lemma LeafIsPage(arena: Arena, i: nat, w: Tally)
    requires Valid(arena) && i < arena.pages
    ensures PlaceAt(arena, i, 1) == Placed ==>
              Paged(arena, i, 1, w.Lists()) ==
              (Append(w.available, Address(arena, i), Address(arena, i + 1), AvailableNote(arena.what)), w.unavailable)
    ensures PlaceAt(arena, i, 1) != Placed ==>
              Leaf(arena, i, PlaceAt(arena, i, 1), w).Lists() == Paged(arena, i, 1, w.Lists())
  {
    hide Valid, Address, Append, PlaceAt, AvailableNote, RefusedNote;
    assert Paged(arena, i + 1, 0, AddPage(arena, i, w.Lists())) == AddPage(arena, i, w.Lists());
  }

  // -------------------------------------------------------------------------
  // When the two walks agree
  // -------------------------------------------------------------------------

  predicate AllUsable(arena: Arena, i: nat, n: nat)
    requires Valid(arena) && i + n <= arena.pages
  {
    forall k :: i <= k < i + n ==> ClassOf(arena, k) == Usable
  }

  /** No placement the subdivision of this tile is granted spans a page that is refused on its own. */
  predicate CleanTile(arena: Arena, i: nat, n: nat)
    requires Valid(arena) && 1 <= n && i + n <= arena.pages
    decreases n
  {
    if PlaceAt(arena, i, n) == Placed then AllUsable(arena, i, n)
    else n == 1 || (CleanTile(arena, i, n / 2) && CleanTile(arena, i + n / 2, n - n / 2))
  }

  predicate CleanTiles(arena: Arena, window: nat, i: nat)
    requires Valid(arena) && 1 <= window && i <= arena.pages
    decreases arena.pages - i
  {
    i == arena.pages ||
    (var n := TileSize(arena, window, i); CleanTile(arena, i, n) && CleanTiles(arena, window, i + n))
  }

  /** Subdividing a clean tile records exactly what walking its pages one by one records. */
  lemma {:induction false} FullIsPaged(arena: Arena, i: nat, n: nat, w: Tally)
    requires Valid(arena) && 1 <= n && i + n <= arena.pages && CleanTile(arena, i, n)
    ensures Full(arena, i, n, w).Lists() == Paged(arena, i, n, w.Lists())
    decreases n
  {
    hide Valid, Address, Append, PlaceAt, AvailableNote, RefusedNote, ClassOf, Paged, Leaf;
    var tried := w.(attempts := w.attempts + 1);
    if n == 1 {
      LeafIsPage(arena, i, tried);
    } else if PlaceAt(arena, i, n) == Placed {
      UsablePages(arena, i, n, w.Lists());
    } else {
      FullIsPaged(arena, i, n / 2, tried);
      FullIsPaged(arena, i + n / 2, n - n / 2, Full(arena, i, n / 2, tried));
      PagedInTwoSteps(arena, i, n / 2, n - n / 2, w.Lists());
    }
  }

  lemma {:induction false} TilesArePaged(arena: Arena, window: nat, i: nat, w: Tally)
    requires Valid(arena) && 1 <= window && i <= arena.pages && CleanTiles(arena, window, i)
    ensures Tiles(arena, window, i, w).Lists() == Paged(arena, i, arena.pages - i, w.Lists())
    decreases arena.pages - i
  {
    hide Valid, Full, CleanTile, AddPage;
    if i < arena.pages {
      var n := TileSize(arena, window, i);
      FullIsPaged(arena, i, n, w);
      TilesArePaged(arena, window, i + n, Full(arena, i, n, w));
      PagedInTwoSteps(arena, i, n, arena.pages - i - n, w.Lists());
    }
  }

  // -------------------------------------------------------------------------
  // What a list of ranges says about an address
  // -------------------------------------------------------------------------

  ghost predicate Says(ranges: seq<ClassifiedRange>, a: int, note: string) {
    exists k :: 0 <= k < |ranges| && ranges[k].range.HasAddress(a) && ranges[k].note == note
  }

  ghost predicate Covers(ranges: seq<ClassifiedRange>, a: int) {
    exists k :: 0 <= k < |ranges| && ranges[k].range.HasAddress(a)
  }

  /** Non-empty ranges in increasing order below `limit`, none of which could be merged with the next. */
  ghost predicate Runs(ranges: seq<ClassifiedRange>, limit: int) {
    && (forall k :: 0 <= k < |ranges| ==> ranges[k].range.start < ranges[k].range.end <= limit)
    && (forall j, k :: 0 <= j < k < |ranges| ==> ranges[j].range.end <= ranges[k].range.start)
    && (forall k :: 0 < k < |ranges| && ranges[k - 1].range.end == ranges[k].range.start ==>
          ranges[k - 1].note != ranges[k].note)
  }

  lemma PushKeepsRuns(ranges: seq<ClassifiedRange>, x: ClassifiedRange)
    requires Runs(ranges, x.range.start) && x.range.start < x.range.end
    requires ranges != [] && ranges[|ranges| - 1].range.end == x.range.start ==> ranges[|ranges| - 1].note != x.note
    ensures Runs(ranges + [x], x.range.end)
  {
  }

  lemma ExtendKeepsRuns(ranges: seq<ClassifiedRange>, end: u64)
    requires ranges != [] && Runs(ranges, ranges[|ranges| - 1].range.end) && ranges[|ranges| - 1].range.end < end
    ensures var last := ranges[|ranges| - 1];
      Runs(ranges[..|ranges| - 1] + [last.(range := AddressRange(last.range.start, end))], end)
  {
  }

  lemma AppendKeepsRuns(ranges: seq<ClassifiedRange>, start: u64, end: u64, note: string)
    requires Runs(ranges, start) && start < end
    ensures Runs(Append(ranges, start, end, note), end)
  {
    hide Runs;
    var n := |ranges|;
    if n != 0 && ranges[n - 1].range.end == start && ranges[n - 1].note == note {
      ExtendKeepsRuns(ranges, end);
    } else {
      PushKeepsRuns(ranges, Measured(start, end, note));
    }
  }

  lemma AppendKeepsSaying(ranges: seq<ClassifiedRange>, start: u64, end: u64, note: string, a: int, text: string)
    requires Runs(ranges, start) && start < end
    requires Says(ranges, a, text) || (start <= a < end && text == note)
    ensures Says(Append(ranges, start, end, note), a, text)
  {
    var n, r := |ranges|, Append(ranges, start, end, note);
    if Says(ranges, a, text) {
      var k :| 0 <= k < n && ranges[k].range.HasAddress(a) && ranges[k].note == text;
      assert ranges[k].range.end <= start;
      assert r[k].range.HasAddress(a) && r[k].note == text;
    } else {
      assert r[|r| - 1].range.HasAddress(a) && r[|r| - 1].note == text;
    }
  }

  lemma AppendSaysNothingElse(ranges: seq<ClassifiedRange>, start: u64, end: u64, note: string, a: int, text: string)
    requires start < end && Says(Append(ranges, start, end, note), a, text)
    ensures Says(ranges, a, text) || (start <= a < end && text == note)
  {
    var n, r := |ranges|, Append(ranges, start, end, note);
    var k :| 0 <= k < |r| && r[k].range.HasAddress(a) && r[k].note == text;
    if !(start <= a < end && text == note) {
      assert ranges[k].range.HasAddress(a) && ranges[k].note == text;
    }
  }

  lemma SaysSomething(ranges: seq<ClassifiedRange>, a: int)
    ensures Covers(ranges, a) <==> exists note :: Says(ranges, a, note)
  {
    if Covers(ranges, a) {
      var k :| 0 <= k < |ranges| && ranges[k].range.HasAddress(a);
      assert Says(ranges, a, ranges[k].note);
    }
  }

  /** The page an address of the arena lies in. */
  function PageOf(arena: Arena, a: int): (k: nat)
    requires Valid(arena) && arena.bottom <= a < Address(arena, arena.pages)
    ensures k < arena.pages && Address(arena, k) <= a < Address(arena, k + 1)
  {
    var k := (a - arena.bottom) / arena.page;
    PageOfBounds(arena, a, k);
    k
  }

  lemma PageOfBounds(arena: Arena, a: int, k: int)
    requires Valid(arena) && arena.bottom <= a < Address(arena, arena.pages)
    requires k == (a - arena.bottom) / arena.page
    ensures 0 <= k < arena.pages && Address(arena, k) <= a < Address(arena, k + 1)
  {
    assert a - arena.bottom == k * arena.page + (a - arena.bottom) % arena.page;
    assert (k + 1) * arena.page == k * arena.page + arena.page;
    TimesGrows(arena.pages, k, arena.page);
    TimesGrows(k + 1, 0, arena.page);
  }

  /** The two lists state, for every address of page `k`, exactly what that page answered alone. */
  ghost predicate DescribesPage(arena: Arena, k: nat, lists: Lists)
    requires Valid(arena) && k < arena.pages
  {
    forall a, note :: Address(arena, k) <= a < Address(arena, k + 1) ==>
      && (Says(lists.0, a, note) <==> ClassOf(arena, k) == Usable && note == AvailableNote(arena.what))
      && (Says(lists.1, a, note) <==> ClassOf(arena, k) == Denied(note))
  }

  ghost predicate SilentOutside(arena: Arena, n: nat, ranges: seq<ClassifiedRange>)
    requires Valid(arena) && n <= arena.pages
  {
    forall a, note :: Says(ranges, a, note) ==> arena.bottom <= a < Address(arena, n)
  }

  ghost predicate Describes(arena: Arena, n: nat, lists: Lists)
    requires Valid(arena) && n <= arena.pages
  {
    && Runs(lists.0, Address(arena, n)) && Runs(lists.1, Address(arena, n))
    && SilentOutside(arena, n, lists.0) && SilentOutside(arena, n, lists.1)
    && forall k :: 0 <= k < n ==> DescribesPage(arena, k, lists)
  }

  lemma NothingIsDescribed(arena: Arena)
    requires Valid(arena)
    ensures Describes(arena, 0, ([], []))
  {
  }

  /** The list the next page goes to, and the note it goes under. */
  lemma AddPageMeaning(arena: Arena, n: nat, lists: Lists, a: int, note: string)
    requires Valid(arena) && n < arena.pages
    requires Runs(lists.0, Address(arena, n)) && Runs(lists.1, Address(arena, n))
    ensures var r, here := AddPage(arena, n, lists), Address(arena, n) <= a < Address(arena, n + 1);
      && (Says(r.0, a, note) <==>
          Says(lists.0, a, note) || (here && ClassOf(arena, n) == Usable && note == AvailableNote(arena.what)))
      && (Says(r.1, a, note) <==> Says(lists.1, a, note) || (here && ClassOf(arena, n) == Denied(note)))
  {
    hide Says, Append, PlaceAt, ClassOf, Runs, Address, AvailableNote;
    AddressStrict(arena, n, n + 1);
    var from, to := Address(arena, n), Address(arena, n + 1);
    match ClassOf(arena, n)
    case Usable => AppendMeaning(lists.0, from, to, AvailableNote(arena.what), a, note);
    case Denied(text) => AppendMeaning(lists.1, from, to, text, a, note);
  }

  lemma AddPageKeepsRuns(arena: Arena, n: nat, lists: Lists)
    requires Valid(arena) && n < arena.pages
    requires Runs(lists.0, Address(arena, n)) && Runs(lists.1, Address(arena, n))
    ensures Runs(AddPage(arena, n, lists).0, Address(arena, n + 1))
    ensures Runs(AddPage(arena, n, lists).1, Address(arena, n + 1))
  {
    hide Runs, Append, Address, ClassOf;
    AddressStrict(arena, n, n + 1);
    var from, to := Address(arena, n), Address(arena, n + 1);
    RunsWiden(lists.0, from, to);
    RunsWiden(lists.1, from, to);
    match ClassOf(arena, n)
    case Usable => AppendKeepsRuns(lists.0, from, to, AvailableNote(arena.what));
    case Denied(text) => AppendKeepsRuns(lists.1, from, to, text);
  }

  lemma AddPageDescribesPage(arena: Arena, n: nat, lists: Lists, k: nat)
    requires Valid(arena) && k <= n < arena.pages && Describes(arena, n, lists)
    ensures DescribesPage(arena, k, AddPage(arena, n, lists))
  {
    hide Says, Append, PlaceAt, ClassOf, Runs, Address, AvailableNote, AddPage;
    AddressStrict(arena, k, k + 1);
    AddressStrict(arena, n, n + 1);
    if k < n {
      AddressMono(arena, k + 1, n);
      assert DescribesPage(arena, k, lists);
    }
    forall a, note | Address(arena, k) <= a < Address(arena, k + 1)
      ensures Says(AddPage(arena, n, lists).0, a, note) <==>
              ClassOf(arena, k) == Usable && note == AvailableNote(arena.what)
      ensures Says(AddPage(arena, n, lists).1, a, note) <==> ClassOf(arena, k) == Denied(note)
    {
      AddPageMeaning(arena, n, lists, a, note);
    }
  }

  lemma AddressMono(arena: Arena, i: nat, j: nat)
    requires Valid(arena) && i <= j <= arena.pages
    ensures Address(arena, i) <= Address(arena, j)
  {
    AddressGrows(arena, i, j);
  }

  lemma AddPageDescribes(arena: Arena, n: nat, lists: Lists)
    requires Valid(arena) && n < arena.pages && Describes(arena, n, lists)
    ensures Describes(arena, n + 1, AddPage(arena, n, lists))
  {
    hide Says, Runs, Address, AddPage, ClassOf, DescribesPage;
    var r := AddPage(arena, n, lists);
    AddPageKeepsRuns(arena, n, lists);
    AddressMono(arena, 0, n);
    AddressStrict(arena, n, n + 1);
    BottomIsFirstAddress(arena);
    forall a, note | Says(r.0, a, note) || Says(r.1, a, note) ensures arena.bottom <= a < Address(arena, n + 1) {
      AddPageMeaning(arena, n, lists, a, note);
    }
    forall k | 0 <= k < n + 1 ensures DescribesPage(arena, k, r) {
      AddPageDescribesPage(arena, n, lists, k);
    }
  }

  lemma BottomIsFirstAddress(arena: Arena)
    requires Valid(arena)
    ensures Address(arena, 0) == arena.bottom
  {
  }

  lemma RunsWiden(ranges: seq<ClassifiedRange>, limit: int, wider: int)
    requires Runs(ranges, limit) && limit <= wider
    ensures Runs(ranges, wider)
  {
  }

  lemma AppendMeaning(ranges: seq<ClassifiedRange>, start: u64, end: u64, note: string, a: int, text: string)
    requires Runs(ranges, start) && start < end
    ensures Says(Append(ranges, start, end, note), a, text) <==>
            Says(ranges, a, text) || (start <= a < end && text == note)
  {
    hide Says, Runs, Append;
    if Says(ranges, a, text) || (start <= a < end && text == note) {
      AppendKeepsSaying(ranges, start, end, note, a, text);
    }
    if Says(Append(ranges, start, end, note), a, text) {
      AppendSaysNothingElse(ranges, start, end, note, a, text);
    }
  }

  /**
   * The page-by-page lists are the merged runs of the per-page answers: every
   * address of the arena is in exactly one list, under its own page's note,
   * and no two neighbouring ranges could have been one.
   */
  lemma {:induction false} PagedDescribes(arena: Arena, i: nat, n: nat, lists: Lists)
    requires Valid(arena) && i + n <= arena.pages && Describes(arena, i, lists)
    ensures Describes(arena, i + n, Paged(arena, i, n, lists))
    decreases n
  {
    hide Valid, Describes, AddPage;
    if n == 0 {
    } else {
      AddPageDescribes(arena, i, lists);
      PagedDescribes(arena, i + 1, n - 1, AddPage(arena, i, lists));
    }
  }

  /** So are the adaptive walk's, when no granted placement spans a refused page. */
  lemma CleanWalkDescribes(arena: Arena, window: nat)
    requires Valid(arena) && 1 <= window && CleanTiles(arena, window, 0)
    ensures Describes(arena, arena.pages, Tiles(arena, window, 0, NOTHING).Lists())
  {
    hide Describes, CleanTiles, Tiles, Paged;
    NothingIsDescribed(arena);
    PagedDescribes(arena, 0, arena.pages, NOTHING.Lists());
    TilesArePaged(arena, window, 0, NOTHING);
  }

  // -------------------------------------------------------------------------
  // Clean grants are necessary too
  // -------------------------------------------------------------------------

  ghost predicate NonEmpty(ranges: seq<ClassifiedRange>) {
    forall k :: 0 <= k < |ranges| ==> ranges[k].range.start < ranges[k].range.end
  }

  lemma AppendCovers(ranges: seq<ClassifiedRange>, start: u64, end: u64, note: string, a: int)
    requires NonEmpty(ranges) && start < end
    ensures NonEmpty(Append(ranges, start, end, note))
    ensures Covers(ranges, a) || start <= a < end ==> Covers(Append(ranges, start, end, note), a)
  {
    var n, r := |ranges|, Append(ranges, start, end, note);
    if Covers(ranges, a) {
      var k :| 0 <= k < n && ranges[k].range.HasAddress(a);
      assert r[k].range.HasAddress(a);
    } else if start <= a < end {
      assert r[|r| - 1].range.HasAddress(a);
    }
  }

  lemma LeafKeepsCover(arena: Arena, i: nat, p: Placement, w: Tally, a: int)
    requires Valid(arena) && i < arena.pages && NonEmpty(w.available)
    ensures NonEmpty(Leaf(arena, i, p, w).available)
    ensures Covers(w.available, a) ==> Covers(Leaf(arena, i, p, w).available, a)
  {
    hide Covers, NonEmpty, Append;
    AddressStrict(arena, i, i + 1);
    AppendCovers(w.available, Address(arena, i), Address(arena, i + 1), AvailableNote(arena.what), a);
  }

  lemma {:induction false} FullKeepsCover(arena: Arena, i: nat, n: nat, w: Tally, a: int)
    requires Valid(arena) && 1 <= n && i + n <= arena.pages && NonEmpty(w.available)
    ensures NonEmpty(Full(arena, i, n, w).available)
    ensures Covers(w.available, a) ==> Covers(Full(arena, i, n, w).available, a)
    decreases n
  {
    hide Valid, Address, Append, PlaceAt, Leaf, Covers, NonEmpty;
    var tried := w.(attempts := w.attempts + 1);
    AddressStrict(arena, i, i + n);
    AppendCovers(w.available, Address(arena, i), Address(arena, i + n), AvailableNote(arena.what), a);
    if PlaceAt(arena, i, n) != Placed {
      if n > 1 {
        FullKeepsCover(arena, i, n / 2, tried, a);
        FullKeepsCover(arena, i + n / 2, n - n / 2, Full(arena, i, n / 2, tried), a);
      } else {
        LeafKeepsCover(arena, i, PlaceAt(arena, i, n), tried, a);
      }
    }
  }

  /** An unclean tile puts a page that is refused on its own into the available list. */
  lemma {:induction false} UncleanTileOverclaims(arena: Arena, i: nat, n: nat, w: Tally) returns (k: nat)
    requires Valid(arena) && 1 <= n && i + n <= arena.pages && NonEmpty(w.available)
    requires !CleanTile(arena, i, n)
    ensures i <= k < i + n && ClassOf(arena, k) != Usable
    ensures Covers(Full(arena, i, n, w).available, Address(arena, k))
    decreases n
  {
    hide Valid, Address, Append, PlaceAt, Leaf, Covers, NonEmpty, ClassOf, AllUsable, AvailableNote;
    var tried := w.(attempts := w.attempts + 1);
    if PlaceAt(arena, i, n) == Placed {
      k := GrantOverclaims(arena, i, n, w.available);
    } else {
      var left := Full(arena, i, n / 2, tried);
      FullKeepsCover(arena, i, n / 2, tried, 0);
      if CleanTile(arena, i, n / 2) {
        k := UncleanTileOverclaims(arena, i + n / 2, n - n / 2, left);
      } else {
        k := UncleanTileOverclaims(arena, i, n / 2, tried);
        FullKeepsCover(arena, i + n / 2, n - n / 2, left, Address(arena, k));
      }
    }
  }

  lemma UnusablePage(arena: Arena, i: nat, n: nat) returns (k: nat)
    requires Valid(arena) && i + n <= arena.pages && !AllUsable(arena, i, n)
    ensures i <= k < i + n && ClassOf(arena, k) != Usable
  {
    k :| i <= k < i + n && ClassOf(arena, k) != Usable;
  }

  lemma GrantOverclaims(arena: Arena, i: nat, n: nat, ranges: seq<ClassifiedRange>) returns (k: nat)
    requires Valid(arena) && 1 <= n && i + n <= arena.pages && NonEmpty(ranges)
    requires !AllUsable(arena, i, n)
    ensures i <= k < i + n && ClassOf(arena, k) != Usable
    ensures Covers(Append(ranges, Address(arena, i), Address(arena, i + n), AvailableNote(arena.what)),
            Address(arena, k))
  {
    hide Valid, Address, Append, Covers, NonEmpty, ClassOf, AllUsable;
    k := UnusablePage(arena, i, n);
    AddressStrict(arena, i, i + n);
    PageInTile(arena, i, n, k);
    AppendCovers(ranges, Address(arena, i), Address(arena, i + n), AvailableNote(arena.what), Address(arena, k));
  }

  lemma PageInTile(arena: Arena, i: nat, n: nat, k: nat)
    requires Valid(arena) && i <= k < i + n <= arena.pages
    ensures Address(arena, i) <= Address(arena, k) < Address(arena, i + n)
  {
    AddressGrows(arena, i, k);
    AddressStrict(arena, k, i + n);
  }

  lemma {:induction false} TilesKeepCover(arena: Arena, window: nat, i: nat, w: Tally, a: int)
    requires Valid(arena) && 1 <= window && i <= arena.pages && NonEmpty(w.available)
    ensures Covers(w.available, a) ==> Covers(Tiles(arena, window, i, w).available, a)
    decreases arena.pages - i
  {
    hide Valid, Full, Covers, NonEmpty;
    if i < arena.pages {
      var n := TileSize(arena, window, i);
      FullKeepsCover(arena, i, n, w, a);
      TilesKeepCover(arena, window, i + n, Full(arena, i, n, w), a);
    }
  }

  lemma {:induction false} UncleanTilesOverclaim(arena: Arena, window: nat, i: nat, w: Tally) returns (k: nat)
    requires Valid(arena) && 1 <= window && i <= arena.pages && NonEmpty(w.available)
    requires !CleanTiles(arena, window, i)
    ensures k < arena.pages && ClassOf(arena, k) != Usable
    ensures Covers(Tiles(arena, window, i, w).available, Address(arena, k))
    decreases arena.pages - i
  {
    hide Valid, Full, Covers, NonEmpty, CleanTile, ClassOf;
    var n := TileSize(arena, window, i);
    FullKeepsCover(arena, i, n, w, 0);
    if CleanTile(arena, i, n) {
      k := UncleanTilesOverclaim(arena, window, i + n, Full(arena, i, n, w));
    } else {
      k := UncleanTileOverclaims(arena, i, n, w);
      TilesKeepCover(arena, window, i + n, Full(arena, i, n, w), Address(arena, k));
    }
  }

  /** The adaptive walk records what the page-by-page walk records exactly when its granted placements are clean. */
  lemma AdaptiveEqualsPaged(arena: Arena, window: nat)
    requires Valid(arena) && 1 <= window
    ensures Tiles(arena, window, 0, NOTHING).Lists() == Paged(arena, 0, arena.pages, ([], [])) <==>
            CleanTiles(arena, window, 0)
  {
    hide Describes, Tiles, CleanTiles, Paged, Covers;
    NothingIsDescribed(arena);
    if CleanTiles(arena, window, 0) {
      TilesArePaged(arena, window, 0, NOTHING);
    } else {
      var k := UncleanTilesOverclaim(arena, window, 0, NOTHING);
      PagedDescribes(arena, 0, arena.pages, ([], []));
      DeniedIsNotAvailable(arena, Paged(arena, 0, arena.pages, ([], [])), k);
    }
  }

  lemma DeniedIsNotAvailable(arena: Arena, lists: Lists, k: nat)
    requires Valid(arena) && Describes(arena, arena.pages, lists)
    requires k < arena.pages && ClassOf(arena, k) != Usable
    ensures !Covers(lists.0, Address(arena, k))
  {
    AddressStrict(arena, k, k + 1);
    assert DescribesPage(arena, k, lists);
    SaysSomething(lists.0, Address(arena, k));
  }

  // -------------------------------------------------------------------------
  // A property of the platform alone
  // -------------------------------------------------------------------------

  /** Whatever stretch the platform grants, it would grant, or hold, each page of it alone. */
  ghost predicate HonestGrants(arena: Arena)
    requires Valid(arena)
  {
    forall i: nat, n: nat {:trigger PlaceAt(arena, i, n)} ::
      i + n <= arena.pages && PlaceAt(arena, i, n) == Placed ==> AllUsable(arena, i, n)
  }

  lemma {:induction false} HonestTileIsClean(arena: Arena, i: nat, n: nat)
    requires Valid(arena) && HonestGrants(arena) && 1 <= n && i + n <= arena.pages
    ensures CleanTile(arena, i, n)
    decreases n
  {
    hide Valid, PlaceAt, AllUsable;
    if PlaceAt(arena, i, n) != Placed && n > 1 {
      HonestTileIsClean(arena, i, n / 2);
      HonestTileIsClean(arena, i + n / 2, n - n / 2);
    }
  }

  lemma {:induction false} HonestTilesAreClean(arena: Arena, window: nat, i: nat)
    requires Valid(arena) && HonestGrants(arena) && 1 <= window && i <= arena.pages
    ensures CleanTiles(arena, window, i)
    decreases arena.pages - i
  {
    hide Valid, HonestGrants, CleanTile;
    if i < arena.pages {
      HonestTileIsClean(arena, i, TileSize(arena, window, i));
      HonestTilesAreClean(arena, window, i + TileSize(arena, window, i));
    }
  }

  /** On such a platform, with any window, the adaptive walk records what the page-by-page walk records. */
  lemma HonestGrantsSuffice(arena: Arena, window: nat)
    requires Valid(arena) && HonestGrants(arena) && 1 <= window
    ensures CleanTiles(arena, window, 0)
    ensures Tiles(arena, window, 0, NOTHING).Lists() == Paged(arena, 0, arena.pages, ([], []))
  {
    hide CleanTiles, Tiles, Paged, HonestGrants;
    HonestTilesAreClean(arena, window, 0);
    AdaptiveEqualsPaged(arena, window);
  }

  /** Two one-byte pages that are granted as a pair, while the second is refused on its own. */
  predicate PairOnly(arena: Arena) {
    && arena.bottom == 0 && arena.page == 1 && arena.pages == 2
    && arena.probe.place(0, 2) == Placed && arena.probe.place(0, 1) == Placed
    && arena.probe.place(1, 1) == Refused && !arena.probe.describe(1).covers
  }

  lemma PairOnlyExists() returns (arena: Arena)
    ensures PairOnly(arena)
  {
    var place := (b: u64, size: u64) => if b == 1 then Refused else Placed;
    arena := Arena("", 0, 1, 2, Probe(true, place, (b: u64) => Entry(false, 0, 0, "")));
  }

  /** There the adaptive walk records both pages as available, and the page-by-page walk only the first. */
  lemma PairIsOverclaimed(arena: Arena)
    requires PairOnly(arena)
    ensures Valid(arena) && !HonestGrants(arena)
    ensures Tiles(arena, 2, 0, NOTHING).Lists() == ([Measured(0, 2, AvailableNote(arena.what))], [])
    ensures Paged(arena, 0, 2, ([], [])) ==
            ([Measured(0, 1, AvailableNote(arena.what))],
             [Measured(1, 2, RefusedNote(arena.what, arena.probe.describe(1)))])
  {
    hide AvailableNote, RefusedNote, PlaceAt, ClassOf, Address, Valid, Append;
    PairAnswers(arena);
    NothingAppends(0, 1, AvailableNote(arena.what));
    NothingAppends(0, 2, AvailableNote(arena.what));
    NothingAppends(1, 2, RefusedNote(arena.what, arena.probe.describe(1)));
    PairIsOneTile(arena);
    assert !AllUsable(arena, 0, 2);
    var one := AddPage(arena, 0, ([], []));
    assert Paged(arena, 2, 0, AddPage(arena, 1, one)) == Paged(arena, 1, 1, one);
  }

  lemma PairIsOneTile(arena: Arena)
    requires Valid(arena) && arena.pages == 2
    ensures Tiles(arena, 2, 0, NOTHING) == Full(arena, 0, 2, NOTHING)
  {
    hide Full, Valid;
    assert Tiles(arena, 2, 2, Full(arena, 0, 2, NOTHING)) == Full(arena, 0, 2, NOTHING);
  }

  lemma PairAnswers(arena: Arena)
    requires PairOnly(arena)
    ensures Valid(arena) && Address(arena, 0) == 0 && Address(arena, 1) == 1 && Address(arena, 2) == 2
    ensures PlaceAt(arena, 0, 2) == Placed && ClassOf(arena, 0) == Usable
    ensures ClassOf(arena, 1) == Denied(RefusedNote(arena.what, arena.probe.describe(1)))
  {
    hide AvailableNote, RefusedNote;
  }

  lemma NothingAppends(start: u64, end: u64, note: string)
    requires start < end
    ensures Append([], start, end, note) == [Measured(start, end, note)]
  {
  }

  // -------------------------------------------------------------------------
  // Layout independence
  // -------------------------------------------------------------------------

  /** Two arenas whose pages are refused in the same places, with the same text. */
  ghost predicate SamePageClasses(a: Arena, b: Arena)
    requires Valid(a) && Valid(b)
  {
    && a.what == b.what && a.bottom == b.bottom && a.page == b.page && a.pages == b.pages
    && forall i :: 0 <= i < a.pages ==> ClassOf(a, i) == ClassOf(b, i)
  }

  lemma {:induction false} PagedDependsOnClasses(a: Arena, b: Arena, i: nat, n: nat, lists: Lists)
    requires Valid(a) && Valid(b) && SamePageClasses(a, b) && i + n <= a.pages
    ensures Paged(a, i, n, lists) == Paged(b, i, n, lists)
    decreases n
  {
    hide ClassOf, Append;
    if n == 0 {
    } else {
      assert AddPage(a, i, lists) == AddPage(b, i, lists);
      PagedDependsOnClasses(a, b, i + 1, n - 1, AddPage(a, i, lists));
    }
  }

  /**
   * Two runs of the probe whose placements, held pages and covered pages fall
   * differently, and whose first attempts have different sizes, record the
   * same ranges as long as they agree on the structurally refused pages.
   */
  lemma LayoutIndependence(a: Arena, b: Arena, windowA: nat, windowB: nat)
    requires Valid(a) && Valid(b) && 1 <= windowA && 1 <= windowB
    requires CleanTiles(a, windowA, 0) && CleanTiles(b, windowB, 0) && SamePageClasses(a, b)
    ensures Tiles(a, windowA, 0, NOTHING).Lists() == Tiles(b, windowB, 0, NOTHING).Lists()
  {
    hide CleanTiles, Tiles, Paged, ClassOf;
    TilesArePaged(a, windowA, 0, NOTHING);
    TilesArePaged(b, windowB, 0, NOTHING);
    PagedDependsOnClasses(a, b, 0, a.pages, NOTHING.Lists());
  }
}
