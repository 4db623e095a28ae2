/**
 * The replayer's sorted segment list, read as a map from addresses to cells.
 *
 * `SegmentTable` keeps the list; the ghost field `cells` is the plain
 * address-to-cell map the list stands for. Every operation is specified on
 * `cells` alone, by one of the byte-level functions below.
 */
module Segments {
  import opened Words

  datatype Segment = Segment(start: u64, end: u64, protection: u32, committed: bool, reservationBase: u64)

  datatype Cell = Cell(committed: bool, protection: u32, base: int)

  type ByteMap = map<int, Cell>

  // -------------------------------------------------------------------------
  // Byte-level meaning of each list operation
  // -------------------------------------------------------------------------

  predicate Within(a: int, start: int, end: int) {
    start <= a < end
  }

  ghost predicate AnyMapped(m: ByteMap, start: int, end: int) {
    exists a :: Within(a, start, end) && a in m
  }

  ghost predicate AllMapped(m: ByteMap, start: int, end: int, requireCommitted: bool) {
    forall a :: Within(a, start, end) ==> a in m && (requireCommitted ==> m[a].committed)
  }

  ghost function Erase(m: ByteMap, start: int, end: int): ByteMap {
    map a | a in m && !Within(a, start, end) :: m[a]
  }

  ghost function Fill(m: ByteMap, start: int, end: int, cell: Cell): ByteMap {
    m + (map a | start <= a < end && Within(a, start, end) :: cell)
  }

  ghost function Restate(m: ByteMap, start: int, end: int, committed: bool, protection: u32): ByteMap {
    map a | a in m :: if Within(a, start, end) then Cell(committed, protection, m[a].base) else m[a]
  }

  ghost predicate BaseInUse(m: ByteMap, base: int) {
    exists a :: a in m && m[a].base == base
  }

  ghost function EraseBase(m: ByteMap, base: int): ByteMap {
    map a | a in m && m[a].base != base :: m[a]
  }

  // -------------------------------------------------------------------------
  // The abstraction relation
  // -------------------------------------------------------------------------

  predicate In(s: Segment, a: int) {
    s.start <= a < s.end
  }

  function CellOf(s: Segment): Cell {
    Cell(s.committed, s.protection, s.reservationBase)
  }

  /** Sorted, non-empty, pairwise disjoint. */
  ghost predicate Ordered(segs: seq<Segment>) {
    && (forall i :: 0 <= i < |segs| ==> segs[i].start < segs[i].end)
    && (forall i, j :: 0 <= i < j < |segs| ==> segs[i].end <= segs[j].start)
  }

  ghost predicate Represents(segs: seq<Segment>, m: ByteMap) {
    && (forall i, a {:trigger In(segs[i], a)} :: 0 <= i < |segs| && In(segs[i], a) ==>
       a in m && m[a] == CellOf(segs[i]))
    && (forall a :: a in m ==> exists i :: 0 <= i < |segs| && In(segs[i], a))
  }

  /** An ordered list stands for at most one map, so `Represents` loses nothing a reader of the list could see. */
  lemma RepresentedMapIsUnique(segs: seq<Segment>, m: ByteMap, n: ByteMap)
    requires Represents(segs, m) && Represents(segs, n)
    ensures m == n
  {
    forall a ensures a in m <==> a in n {
      if a in m {
        var i :| 0 <= i < |segs| && In(segs[i], a);
      }
      if a in n {
        var i :| 0 <= i < |segs| && In(segs[i], a);
      }
    }
    forall a | a in m ensures m[a] == n[a] {
      var i :| 0 <= i < |segs| && In(segs[i], a);
    }
  }

  /** Two lists with the same members, whatever their order, stand for the same map. */
  lemma SameMembersRepresent(s: seq<Segment>, t: seq<Segment>, m: ByteMap)
    requires (forall x :: x in s <==> x in t) && Represents(s, m)
    ensures Represents(t, m)
  {
    forall i, a | 0 <= i < |t| && In(t[i], a) ensures a in m && m[a] == CellOf(t[i]) {
      assert t[i] in s;
    }
    forall a | a in m ensures exists i :: 0 <= i < |t| && In(t[i], a) {
      var i :| 0 <= i < |s| && In(s[i], a);
      assert s[i] in t;
    }
  }

  /** Past the end of every segment before `i` and before the start of the rest lies nothing. */
  lemma GapIsUnmapped(segs: seq<Segment>, m: ByteMap, i: nat, a: int)
    requires Ordered(segs) && Represents(segs, m) && i <= |segs|
    requires forall k :: 0 <= k < i ==> segs[k].end <= a
    requires i < |segs| ==> a < segs[i].start
    ensures a !in m
  {
    forall k | 0 <= k < |segs| ensures !In(segs[k], a) {}
  }

  // -------------------------------------------------------------------------
  // Sorting by start address
  // -------------------------------------------------------------------------

  ghost predicate Clear(segs: seq<Segment>, x: Segment) {
    forall i :: 0 <= i < |segs| ==> segs[i].end <= x.start || x.end <= segs[i].start
  }

  method InsertByStart(sorted: seq<Segment>, x: Segment) returns (r: seq<Segment>)
    requires Ordered(sorted) && x.start < x.end && Clear(sorted, x)
    ensures Ordered(r) && |r| == |sorted| + 1
    ensures forall y :: y in r <==> y in sorted || y == x
  {
    var i := 0;
    while i < |sorted| && sorted[i].start < x.start
      invariant 0 <= i <= |sorted|
      invariant forall k :: 0 <= k < i ==> sorted[k].end <= x.start
    {
      i := i + 1;
    }
    r := sorted[..i] + [x] + sorted[i..];
  }

  ghost predicate Apart(segs: seq<Segment>) {
    && (forall i :: 0 <= i < |segs| ==> segs[i].start < segs[i].end)
    && (forall j :: 0 <= j < |segs| ==> Clear(segs[..j], segs[j]))
  }

  /** `std::sort` by start address, on the only lists it is handed: pairwise disjoint ones. */
  method SortSegments(segs: seq<Segment>) returns (r: seq<Segment>)
    requires Apart(segs)
    ensures Ordered(r) && |r| == |segs|
    ensures forall x :: x in r <==> x in segs
  {
    r := [];
    for i := 0 to |segs|
      invariant Ordered(r) && |r| == i
      invariant forall x :: x in r <==> x in segs[..i]
    {
      assert Clear(r, segs[i]) by {
        forall k | 0 <= k < |r| ensures r[k].end <= segs[i].start || segs[i].end <= r[k].start {
          assert r[k] in segs[..i];
        }
      }
      r := InsertByStart(r, segs[i]);
      assert segs[..i + 1] == segs[..i] + [segs[i]];
    }
    assert segs[..|segs|] == segs;
  }

  class SegmentTable {
    var segments: seq<Segment>
    ghost var cells: ByteMap

    ghost predicate Valid()
      reads this
    {
      Ordered(segments) && Represents(segments, cells)
    }

    constructor ()
      ensures Valid() && segments == [] && cells == map[]
    {
      segments := [];
      cells := map[];
    }

    method Overlaps(start: u64, end: u64) returns (r: bool)
      requires Valid() && start < end
      ensures r <==> AnyMapped(cells, start, end)
    {
      for i := 0 to |segments|
        invariant forall k, a :: 0 <= k < i && In(segments[k], a) ==> !Within(a, start, end)
      {
        if segments[i].start < end && start < segments[i].end {
          var a := if segments[i].start < start then start else segments[i].start;
          assert In(segments[i], a);
          assert Within(a, start, end) && a in cells;
          return true;
        }
      }
      return false;
    }

    method Covered(start: u64, end: u64, requireCommitted: bool) returns (r: bool)
      requires Valid() && start < end
      ensures r <==> AllMapped(cells, start, end, requireCommitted)
    {
      var cursor := start;
      for i := 0 to |segments|
        invariant start <= cursor < end
        invariant forall k :: 0 <= k < i ==> segments[k].end <= cursor
        invariant AllMapped(cells, start, cursor, requireCommitted)
      {
        var s := segments[i];
        if s.end > cursor {
          assert Within(cursor, start, end);
          if s.start > cursor {
            GapIsUnmapped(segments, cells, i, cursor);
            return false;
          }
          assert In(s, cursor);
          if requireCommitted && !s.committed {
            return false;
          }
          var next := if end < s.end then end else s.end;
          assert forall a :: Within(a, cursor, next) ==> In(s, a);
          assert forall a :: Within(a, start, next) ==> Within(a, start, cursor) || Within(a, cursor, next);
          cursor := next;
          if cursor == end {
            return true;
          }
        }
      }
      GapIsUnmapped(segments, cells, |segments|, cursor);
      assert Within(cursor, start, end);
      return false;
    }

    /** Drops every byte of `[start, end)`, cutting the segments that stick out on either side. */
    method EraseRange(start: u64, end: u64)
      requires Valid() && start < end
      modifies this
      ensures Valid()
      ensures cells == Erase(old(cells), start, end)
      ensures |segments| <= |old(segments)| + 1
    {
      var next: seq<Segment> := [];
      for i := 0 to |segments|
        invariant segments == old(segments) && cells == old(cells)
        invariant next == Remainders(segments[..i], start, end)
      {
        assert segments[..i + 1][..i] == segments[..i];
        next := next + Remainder(segments[i], start, end);
      }
      assert segments[..|segments|] == segments;
      RemaindersErase(segments, cells, start, end);
      RemaindersAreOrdered(segments, start, end);
      OrderedIsApart(next);
      cells := Erase(cells, start, end);
      segments := SortSegments(next);
      SameMembersRepresent(next, segments, cells);
    }

    /** Cuts the segment that strictly contains `point`, if there is one. No byte changes. */
    method SplitAt(point: u64)
      requires Valid()
      modifies this
      ensures Valid()
      ensures cells == old(cells)
      ensures |segments| <= |old(segments)| + 1
      ensures !Straddled(segments, point)
      ensures forall p :: !Straddled(old(segments), p) ==> !Straddled(segments, p)
    {
      for i := 0 to |segments|
        invariant segments == old(segments) && cells == old(cells)
        invariant !Straddled(segments[..i], point)
      {
        if segments[i].start < point < segments[i].end {
          SplitIsOrdered(segments, i, point);
          SplitKeepsMeaning(segments, cells, i, point);
          SplitRemovesStraddle(segments, i, point);
          segments := Split(segments, i, point);
          return;
        }
      }
      assert segments[..|segments|] == segments;
    }

    method SetRange(start: u64, end: u64, committed: bool, protection: u32)
      requires Valid() && start < end
      modifies this
      ensures Valid()
      ensures cells == Restate(old(cells), start, end, committed, protection)
      ensures |segments| <= |old(segments)| + 2
    {
      SplitAt(start);
      SplitAt(end);
      ghost var cut := segments;
      for i := 0 to |segments|
        invariant |segments| == |cut| && cells == old(cells)
        invariant forall k :: i <= k < |cut| ==> segments[k] == cut[k]
        invariant forall k :: 0 <= k < i ==> segments[k] == Repainted(cut[k], start, end, committed, protection)
      {
        segments := segments[i := Repainted(segments[i], start, end, committed, protection)];
      }
      cells := Restate(cells, start, end, committed, protection);
      RepaintRestates(cut, segments, old(cells), start, end, committed, protection);
    }

    /** Removes every segment of the reservation based at `address`; false when there is none. */
    method ReleaseWindows(address: u64) returns (found: bool)
      requires Valid()
      modifies this
      ensures Valid()
      ensures found <==> BaseInUse(old(cells), address)
      ensures cells == EraseBase(old(cells), address)
      ensures |segments| <= |old(segments)|
    {
      found := false;
      var kept: seq<Segment> := [];
      for i := 0 to |segments|
        invariant segments == old(segments) && cells == old(cells)
        invariant found <==> exists k :: 0 <= k < i && segments[k].reservationBase == address
        invariant Ordered(kept) && |kept| <= i
        invariant forall k :: 0 <= k < |kept| && i < |segments| ==> kept[k].end <= segments[i].start
        invariant forall x :: x in kept <==> x in segments[..i] && x.reservationBase != address
      {
        assert segments[..i + 1] == segments[..i] + [segments[i]];
        if segments[i].reservationBase == address {
          found := true;
        } else {
          kept := kept + [segments[i]];
        }
      }
      assert segments[..|segments|] == segments;
      ReleaseErasesBase(segments, kept, cells, address);
      BaseInUseOfSegments(segments, cells, address);
      segments := kept;
      cells := EraseBase(cells, address);
    }

    /** `push_back` then sort: a new segment over unmapped bytes. */
    method Push(s: Segment)
      requires Valid() && s.start < s.end && !AnyMapped(cells, s.start, s.end)
      modifies this
      ensures Valid()
      ensures cells == Fill(old(cells), s.start, s.end, CellOf(s))
      ensures |segments| == |old(segments)| + 1
    {
      PushStaysApart(segments, cells, s);
      PushFills(segments, cells, s);
      var unsorted := segments + [s];
      segments := SortSegments(unsorted);
      cells := Fill(cells, s.start, s.end, CellOf(s));
      SameMembersRepresent(unsorted, segments, cells);
    }

    /** Erase the range of `s`, then push `s`. */
    method Replace(s: Segment)
      requires Valid() && s.start < s.end
      modifies this
      ensures Valid()
      ensures cells == Fill(old(cells), s.start, s.end, CellOf(s))
      ensures |segments| <= |old(segments)| + 2
    {
      EraseThenFill(cells, s.start, s.end, CellOf(s));
      EraseRange(s.start, s.end);
      Push(s);
    }
  }

  // -------------------------------------------------------------------------
  // Pushing
  // -------------------------------------------------------------------------

  lemma PushStaysApart(segs: seq<Segment>, m: ByteMap, s: Segment)
    requires Ordered(segs) && Represents(segs, m)
    requires s.start < s.end && !AnyMapped(m, s.start, s.end)
    ensures Apart(segs + [s])
  {
    OrderedIsApart(segs);
    forall k | 0 <= k < |segs| ensures segs[k].end <= s.start || s.end <= segs[k].start {
      if segs[k].start < s.end && s.start < segs[k].end {
        var a := if segs[k].start < s.start then s.start else segs[k].start;
        assert In(segs[k], a) && Within(a, s.start, s.end);
        assert false;
      }
    }
    forall j | 0 <= j < |segs| + 1 ensures Clear((segs + [s])[..j], (segs + [s])[j]) {
      if j < |segs| {
        assert (segs + [s])[..j] == segs[..j];
      } else {
        assert (segs + [s])[..j] == segs;
      }
    }
  }

  lemma PushFills(segs: seq<Segment>, m: ByteMap, s: Segment)
    requires Ordered(segs) && Represents(segs, m)
    requires s.start < s.end && !AnyMapped(m, s.start, s.end)
    ensures Represents(segs + [s], Fill(m, s.start, s.end, CellOf(s)))
  {
    var r, m' := segs + [s], Fill(m, s.start, s.end, CellOf(s));
    forall i, a | 0 <= i < |r| && In(r[i], a) ensures a in m' && m'[a] == CellOf(r[i]) {
      if i < |segs| {
        assert In(segs[i], a);
        assert a in m && !Within(a, s.start, s.end);
      } else {
        assert Within(a, s.start, s.end);
      }
    }
    forall a | a in m' ensures exists i :: 0 <= i < |r| && In(r[i], a) {
      if a in m {
        var i :| 0 <= i < |segs| && In(segs[i], a);
        assert In(r[i], a);
      } else {
        assert In(r[|segs|], a);
      }
    }
  }

  /** Mapping over a range that was erased first is mapping over the range. */
  lemma EraseThenFill(m: ByteMap, start: int, end: int, cell: Cell)
    ensures !AnyMapped(Erase(m, start, end), start, end)
    ensures Fill(Erase(m, start, end), start, end, cell) == Fill(m, start, end, cell)
  {
  }

  // -------------------------------------------------------------------------
  // Splitting and repainting
  // -------------------------------------------------------------------------

  ghost predicate Straddled(segs: seq<Segment>, point: int) {
    exists i :: 0 <= i < |segs| && segs[i].start < point < segs[i].end
  }

  function Split(segs: seq<Segment>, i: nat, point: u64): seq<Segment>
    requires i < |segs|
  {
    segs[..i] + [segs[i].(end := point), segs[i].(start := point)] + segs[i + 1..]
  }

  lemma SplitIndex(segs: seq<Segment>, i: nat, point: u64, k: nat)
    requires i < |segs| && k < |segs| + 1
    ensures |Split(segs, i, point)| == |segs| + 1
    ensures Split(segs, i, point)[k] ==
            if k < i then segs[k]
            else if k == i then segs[i].(end := point)
            else if k == i + 1 then segs[i].(start := point)
            else segs[k - 1]
  {
  }

  lemma SplitIsOrdered(segs: seq<Segment>, i: nat, point: u64)
    requires Ordered(segs)
    requires i < |segs| && segs[i].start < point < segs[i].end
    ensures Ordered(Split(segs, i, point))
  {
    var r := Split(segs, i, point);
    forall k | 0 <= k < |r| ensures r[k].start < r[k].end {
      SplitIndex(segs, i, point, k);
    }
    forall j, k | 0 <= j < k < |r| ensures r[j].end <= r[k].start {
      SplitIndex(segs, i, point, j);
      SplitIndex(segs, i, point, k);
    }
  }

  lemma SplitReads(segs: seq<Segment>, m: ByteMap, i: nat, point: u64, k: nat, a: int)
    requires Represents(segs, m)
    requires i < |segs| && segs[i].start < point < segs[i].end
    requires k < |Split(segs, i, point)| && In(Split(segs, i, point)[k], a)
    ensures a in m && m[a] == CellOf(Split(segs, i, point)[k])
  {
    SplitIndex(segs, i, point, k);
    assert In(segs[if k <= i then k else k - 1], a);
  }

  lemma SplitReaches(segs: seq<Segment>, m: ByteMap, i: nat, point: u64, a: int) returns (k: nat)
    requires Represents(segs, m) && a in m
    requires i < |segs| && segs[i].start < point < segs[i].end
    ensures k < |Split(segs, i, point)| && In(Split(segs, i, point)[k], a)
  {
    var j :| 0 <= j < |segs| && In(segs[j], a);
    k := if j < i || (j == i && a < point) then j else j + 1;
    SplitIndex(segs, i, point, k);
  }

  lemma SplitKeepsMeaning(segs: seq<Segment>, m: ByteMap, i: nat, point: u64)
    requires Represents(segs, m)
    requires i < |segs| && segs[i].start < point < segs[i].end
    ensures Represents(Split(segs, i, point), m)
  {
    forall k, a | 0 <= k < |Split(segs, i, point)| && In(Split(segs, i, point)[k], a)
      ensures a in m && m[a] == CellOf(Split(segs, i, point)[k])
    {
      SplitReads(segs, m, i, point, k, a);
    }
    forall a | a in m ensures exists k :: 0 <= k < |Split(segs, i, point)| && In(Split(segs, i, point)[k], a) {
      var k := SplitReaches(segs, m, i, point, a);
    }
  }

  lemma SplitRemovesStraddle(segs: seq<Segment>, i: nat, point: u64)
    requires Ordered(segs)
    requires i < |segs| && segs[i].start < point < segs[i].end
    ensures !Straddled(Split(segs, i, point), point)
    ensures forall p :: !Straddled(segs, p) ==> !Straddled(Split(segs, i, point), p)
  {
    var r := Split(segs, i, point);
    forall p, k | 0 <= k < |r| && r[k].start < p < r[k].end ensures p != point && Straddled(segs, p) {
      SplitIndex(segs, i, point, k);
      var k' := if k <= i then k else k - 1;
      assert segs[k'].start < p < segs[k'].end;
    }
  }

  function Repainted(s: Segment, start: u64, end: u64, committed: bool, protection: u32): Segment {
    if s.start >= start && s.end <= end then s.(committed := committed, protection := protection) else s
  }

  lemma RepaintedCell(s: Segment, m: ByteMap, start: u64, end: u64, committed: bool, protection: u32, a: int)
    requires In(s, a) && a in m && m[a] == CellOf(s) && start < end
    requires !(s.start < start < s.end) && !(s.start < end < s.end)
    ensures a in Restate(m, start, end, committed, protection)
    ensures Restate(m, start, end, committed, protection)[a] == CellOf(Repainted(s, start, end, committed, protection))
  {
  }

  ghost predicate IsRepaint(cut: seq<Segment>, segs: seq<Segment>, start: u64, end: u64, committed: bool,
      protection: u32) {
    && |segs| == |cut|
    && forall k :: 0 <= k < |cut| ==> segs[k] == Repainted(cut[k], start, end, committed, protection)
  }

  lemma RepaintReads(cut: seq<Segment>, segs: seq<Segment>, m: ByteMap, start: u64, end: u64,
                     committed: bool, protection: u32, k: nat, a: int)
    requires Represents(cut, m) && start < end
    requires !Straddled(cut, start) && !Straddled(cut, end)
    requires IsRepaint(cut, segs, start, end, committed, protection)
    requires k < |segs| && In(segs[k], a)
    ensures a in Restate(m, start, end, committed, protection)
    ensures Restate(m, start, end, committed, protection)[a] == CellOf(segs[k])
  {
    assert In(cut[k], a);
    RepaintedCell(cut[k], m, start, end, committed, protection, a);
  }

  lemma RepaintRestates(cut: seq<Segment>, segs: seq<Segment>, m: ByteMap, start: u64, end: u64,
                        committed: bool, protection: u32)
    requires Ordered(cut) && Represents(cut, m) && start < end
    requires !Straddled(cut, start) && !Straddled(cut, end)
    requires IsRepaint(cut, segs, start, end, committed, protection)
    ensures Ordered(segs) && Represents(segs, Restate(m, start, end, committed, protection))
  {
    hide Straddled;
    var m' := Restate(m, start, end, committed, protection);
    forall k, a {:trigger In(segs[k], a)} | 0 <= k < |segs| && In(segs[k], a)
        ensures a in m' && m'[a] == CellOf(segs[k]) {
      RepaintReads(cut, segs, m, start, end, committed, protection, k, a);
    }
    forall a | a in m' ensures exists k :: 0 <= k < |segs| && In(segs[k], a) {
      assert a in m;
      var k :| 0 <= k < |cut| && In(cut[k], a);
      assert In(segs[k], a);
    }
  }

  // -------------------------------------------------------------------------
  // Releasing
  // -------------------------------------------------------------------------

  lemma ReleaseErasesBase(segs: seq<Segment>, kept: seq<Segment>, m: ByteMap, base: u64)
    requires Represents(segs, m)
    requires forall x :: x in kept <==> x in segs && x.reservationBase != base
    ensures Represents(kept, EraseBase(m, base))
  {
    var m' := EraseBase(m, base);
    forall k, a | 0 <= k < |kept| && In(kept[k], a) ensures a in m' && m'[a] == CellOf(kept[k]) {
      assert kept[k] in segs;
      var i :| 0 <= i < |segs| && segs[i] == kept[k];
      assert In(segs[i], a);
    }
    forall a | a in m' ensures exists k :: 0 <= k < |kept| && In(kept[k], a) {
      var i :| 0 <= i < |segs| && In(segs[i], a);
      assert segs[i] in kept;
    }
  }

  lemma BaseInUseOfSegments(segs: seq<Segment>, m: ByteMap, base: u64)
    requires Ordered(segs) && Represents(segs, m)
    ensures BaseInUse(m, base) <==> exists k :: 0 <= k < |segs| && segs[k].reservationBase == base
  {
    if BaseInUse(m, base) {
      var a :| a in m && m[a].base == base;
      var i :| 0 <= i < |segs| && In(segs[i], a);
    }
    if k :| 0 <= k < |segs| && segs[k].reservationBase == base {
      assert In(segs[k], segs[k].start);
      assert segs[k].start in m;
    }
  }

  // -------------------------------------------------------------------------
  // Erasing
  // -------------------------------------------------------------------------

  /** What is left of one segment once `[start, end)` is taken out: nothing, itself, one end or both. */
  function Remainder(s: Segment, start: u64, end: u64): seq<Segment> {
    if s.end <= start || end <= s.start then [s]
    else
      (if s.start < start then [s.(end := start)] else []) +
      (if end < s.end then [s.(start := end)] else [])
  }

  ghost function Remainders(segs: seq<Segment>, start: u64, end: u64): seq<Segment> {
    if segs == [] then []
    else
      var n := |segs| - 1;
      Remainders(segs[..n], start, end) + Remainder(segs[n], start, end)
  }

  /** `x` is a non-empty piece of `s` that avoids `[start, end)`. */
  ghost predicate PieceOf(x: Segment, s: Segment, start: u64, end: u64) {
    && s.start <= x.start < x.end <= s.end
    && CellOf(x) == CellOf(s)
    && (x.end <= start || end <= x.start)
  }

  lemma {:induction false} RemaindersArePieces(segs: seq<Segment>, start: u64, end: u64, k: nat)
    requires Ordered(segs) && start < end && k < |Remainders(segs, start, end)|
    ensures exists i :: 0 <= i < |segs| && PieceOf(Remainders(segs, start, end)[k], segs[i], start, end)
  {
    var n := |segs| - 1;
    var p, q := Remainders(segs[..n], start, end), Remainder(segs[n], start, end);
    if k < |p| {
      RemaindersArePieces(segs[..n], start, end, k);
      var i :| 0 <= i < n && PieceOf(p[k], segs[..n][i], start, end);
      assert PieceOf(p[k], segs[i], start, end);
    } else {
      assert PieceOf(q[k - |p|], segs[n], start, end);
    }
  }

  lemma OrderedAppend(p: seq<Segment>, q: seq<Segment>, cut: u64)
    requires Ordered(p) && Ordered(q)
    requires forall k :: 0 <= k < |p| ==> p[k].end <= cut
    requires forall k :: 0 <= k < |q| ==> cut <= q[k].start
    ensures Ordered(p + q)
  {
  }

  lemma RemainderIsOrdered(s: Segment, start: u64, end: u64)
    requires s.start < s.end && start < end
    ensures var q := Remainder(s, start, end);
      && Ordered(q) && (forall k :: 0 <= k < |q| ==> s.start <= q[k].start)
      && |q| <= (if s.start < start && end < s.end then 2 else 1)
  {
  }

  lemma {:induction false} RemaindersAreOrdered(segs: seq<Segment>, start: u64, end: u64)
    requires Ordered(segs) && start < end
    ensures Ordered(Remainders(segs, start, end))
    ensures |Remainders(segs, start, end)| <= |segs| + (if segs != [] && segs[|segs| - 1].end > end then 1 else 0)
  {
    if segs == [] {
    } else {
      var n := |segs| - 1;
      var p := Remainders(segs[..n], start, end);
      RemaindersAreOrdered(segs[..n], start, end);
      forall k | 0 <= k < |p| ensures p[k].end <= segs[n].start {
        RemaindersArePieces(segs[..n], start, end, k);
      }
      RemainderIsOrdered(segs[n], start, end);
      OrderedAppend(p, Remainder(segs[n], start, end), segs[n].start);
    }
  }

  lemma {:induction false} RemaindersKeepTheRest(segs: seq<Segment>, start: u64, end: u64, i: nat, a: int)
    requires i < |segs| && In(segs[i], a) && !Within(a, start, end)
    ensures exists k :: 0 <= k < |Remainders(segs, start, end)| && In(Remainders(segs, start, end)[k], a)
  {
    var n := |segs| - 1;
    var p, q := Remainders(segs[..n], start, end), Remainder(segs[n], start, end);
    var r := Remainders(segs, start, end);
    if i < n {
      RemaindersKeepTheRest(segs[..n], start, end, i, a);
      var k :| 0 <= k < |p| && In(p[k], a);
      assert In(r[k], a);
    } else {
      var k := if a < start || segs[n].end <= start || end <= segs[n].start then 0 else |q| - 1;
      assert In(q[k], a);
      assert In(r[|p| + k], a);
    }
  }

  lemma OrderedIsApart(segs: seq<Segment>)
    requires Ordered(segs)
    ensures Apart(segs)
  {
  }

  lemma RemaindersRead(segs: seq<Segment>, m: ByteMap, start: u64, end: u64, k: nat, a: int)
    requires Ordered(segs) && Represents(segs, m) && start < end
    requires k < |Remainders(segs, start, end)| && In(Remainders(segs, start, end)[k], a)
    ensures a in m && m[a] == CellOf(Remainders(segs, start, end)[k]) && !Within(a, start, end)
  {
    RemaindersArePieces(segs, start, end, k);
    var i :| 0 <= i < |segs| && PieceOf(Remainders(segs, start, end)[k], segs[i], start, end);
    assert In(segs[i], a);
  }

  lemma RemaindersErase(segs: seq<Segment>, m: ByteMap, start: u64, end: u64)
    requires Ordered(segs) && Represents(segs, m) && start < end
    ensures Represents(Remainders(segs, start, end), Erase(m, start, end))
  {
    hide Remainders, Ordered;
    var r, m' := Remainders(segs, start, end), Erase(m, start, end);
    forall k, a | 0 <= k < |r| && In(r[k], a) ensures a in m' && m'[a] == CellOf(r[k]) {
      RemaindersRead(segs, m, start, end, k, a);
    }
    forall a | a in m' ensures exists k :: 0 <= k < |r| && In(r[k], a) {
      var i :| 0 <= i < |segs| && In(segs[i], a);
      RemaindersKeepTheRest(segs, start, end, i, a);
    }
  }
}
