/** The exact condition under which the contiguous walk's loop ends, and the platform answer that is worst for it. */
module GridOrbits {
  import opened Words
  import opened Multiples
  import opened ArenaTypes
  import opened GridWalk
  import opened GridEnds

  // -------------------------------------------------------------------------
  // Adding one number over and over, modulo 2^64
  // -------------------------------------------------------------------------

  /** The largest power of two that divides `w`. */
  function TwoPart(w: nat): (d: nat)
    requires w > 0
    ensures d > 0
  {
    if w % 2 == 1 then 1 else 2 * TwoPart(w / 2)
  }

  lemma {:induction false} TwoPartSplits(w: nat) returns (j: nat, odd: nat)
    requires w > 0
    ensures TwoPart(w) == Pow2(j) && w == odd * Pow2(j) && odd % 2 == 1
  {
    if w % 2 == 1 {
      j, odd := 0, w;
    } else {
      j, odd := TwoPartSplits(w / 2);
      Regroup(2, odd, Pow2(j));
      Regroup(odd, 2, Pow2(j));
      j := j + 1;
    }
  }

  lemma {:induction false} TwoPartOfPower(j: nat)
    ensures TwoPart(Pow2(j)) == Pow2(j)
  {
    if j > 0 {
      TwoPartOfPower(j - 1);
      assert Pow2(j) / 2 == Pow2(j - 1);
    }
  }

  lemma PowerAt64()
    ensures Pow2(64) == U64_LIMIT
  {
    assert Pow2(8) == 0x100;
    hide Pow2;
    PowersMultiply(8, 8);
    PowersMultiply(16, 16);
    PowersMultiply(32, 32);
  }

  /** An odd number has an inverse modulo every power of two. */
  lemma {:induction false} OddInverse(odd: nat, bits: nat) returns (v: nat, t: nat)
    requires odd % 2 == 1
    ensures odd * v == 1 + t * Pow2(bits)
    decreases bits
  {
    if bits == 0 {
      v, t := 1, odd - 1;
    } else {
      v, t := OddInverse(odd, bits - 1);
      var p := Pow2(bits - 1);
      assert Pow2(bits) == 2 * p;
      hide Pow2;
      if t % 2 == 0 {
        Halved(t, p);
        t := t / 2;
      } else {
        assert odd * (v + p) == odd * v + odd * p;
        assert t * p + odd * p == (t + odd) * p;
        Halved(t + odd, p);
        v, t := v + p, (t + odd) / 2;
      }
    }
  }

  lemma Halved(t: nat, p: nat)
    requires t % 2 == 0
    ensures t * p == t / 2 * (2 * p)
  {
    assert t == t / 2 * 2;
    assert t / 2 * 2 * p == t / 2 * (2 * p);
  }

  lemma DividesLimit(w: nat) returns (m: nat)
    requires 0 < w < U64_LIMIT
    ensures U64_LIMIT == m * TwoPart(w) && w % TwoPart(w) == 0
  {
    hide Pow2, TwoPart;
    var j, odd := TwoPartSplits(w);
    QuotientOfProduct(odd, Pow2(j));
    PowerAt64();
    if j >= 64 {
      PowersMultiply(64, j - 64);
      TimesGrows(1, Pow2(j - 64), Pow2(64));
      TimesGrows(1, odd, Pow2(j));
      assert false;
    }
    PowersMultiply(64 - j, j);
    m := Pow2(64 - j);
  }

  /** Adding modulo 2^64 keeps the residue modulo the window's power of two. */
  lemma WrapKeepsResidue(b: u64, w: u64)
    requires w > 0
    ensures WrapAdd(b, w) % TwoPart(w) == b % TwoPart(w)
  {
    hide TwoPart;
    var m := DividesLimit(w);
    var d := TwoPart(w);
    QuotientOfProduct(m, d);
    SameResidue(b, w, 1, d);
    if b + w >= U64_LIMIT {
      SameResidue(b + w, U64_LIMIT, -1, d);
    }
  }

  /** ... and every address of that residue is reached. */
  lemma Reaches(b: u64, w: u64, x: u64) returns (k: nat)
    requires w > 0 && x % TwoPart(w) == b % TwoPart(w)
    ensures (b + k * w) % U64_LIMIT == x
  {
    hide Pow2, TwoPart;
    var j, odd := TwoPartSplits(w);
    var v, t := OddInverse(odd, 64);
    PowerAt64();
    var p := Pow2(j);
    var e := Quotients(x, b, p);
    k := v * e;
    Rounds(v, e, odd, p, t, U64_LIMIT);
    Wraps(b, k * w, p + e * p * t, x);
  }

  lemma Quotients(x: u64, b: u64, p: nat) returns (e: nat)
    requires p > 0 && x % p == b % p
    ensures e * p == x - b + p * U64_LIMIT
  {
    var q, r := Divided(x, p), Divided(b, p);
    hide Divided;
    e := q - r + U64_LIMIT;
    Spread(q, r, U64_LIMIT, p);
  }

  ghost function Divided(n: nat, p: nat): (q: nat)
    requires p > 0
    ensures n == q * p + n % p && q <= n
  {
    Shrinks(n, p);
    n / p
  }

  lemma Shrinks(n: nat, p: nat)
    requires p > 0
    ensures 0 <= n / p <= n && n == n / p * p + n % p
  {
    var q, r := n / p, n % p;
    assert n == q * p + r;
    TimesGrows(q, -1, p);
    TimesGrows(n + 1, q, p);
    TimesGrows(1, p, n + 1);
    assert (n + 1) * p == p * (n + 1);
  }

  lemma Spread(q: int, r: int, limit: int, p: int)
    ensures (q - r + limit) * p == q * p - r * p + p * limit
  {
  }

  lemma Wraps(b: u64, step: int, rounds: int, x: u64)
    requires step == x - b + rounds * U64_LIMIT
    ensures (b + step) % U64_LIMIT == x
  {
    ResidueIs(b + step, rounds, U64_LIMIT, x);
  }

  lemma Rounds(v: int, e: int, odd: int, p: int, t: int, limit: int)
    requires odd * v == 1 + t * limit
    ensures v * e * (odd * p) == e * p + e * p * t * limit
    ensures p * limit + e * p * t * limit == (p + e * p * t) * limit
  {
    calc {
      v * e * (odd * p);
      e * p * (odd * v);
      e * p * (1 + t * limit);
      e * p + e * p * (t * limit);
      e * p + e * p * t * limit;
    }
  }

  lemma WrapStep(b: u64, w: u64, k: nat)
    requires k > 0
    ensures (WrapAdd(b, w) + (k - 1) * w) % U64_LIMIT == (b + k * w) % U64_LIMIT
  {
    assert (k - 1) * w == k * w - w;
    if b + w >= U64_LIMIT {
      SameResidue(b + k * w, U64_LIMIT, -1, U64_LIMIT);
    }
  }

  // -------------------------------------------------------------------------
  // Windows of whole pages
  // -------------------------------------------------------------------------

  /** Some address the additions can reach lies past the ceiling or on a page boundary. */
  ghost predicate CanStop(g: Grid)
    requires Usable(g)
  {
    exists x: u64 :: x % TwoPart(g.window) == g.bottom % TwoPart(g.window) && (x > g.top || x % g.page == 0)
  }

  lemma {:induction false} AlignedStops(g: Grid, b: u64, n: nat)
    requires Usable(g) && g.window % g.page == 0 && b % g.page == 0 && b + n >= g.top
    ensures Stops(g, b, n)
    decreases n
  {
    hide Resume;
    if !HaltsAt(g, b) {
      SameResidue(b, g.window, 1, g.page);
      SameResidue(b, g.window, Jump(g, b) + 1, g.page);
      JumpLands(g, b);
      AlignedStops(g, NextBase(g, b), n - 1);
    }
  }

  lemma {:induction false} OrbitStops(g: Grid, b: u64, k: nat, x: u64) returns (n: nat)
    requires Usable(g) && g.window % g.page == 0 && b <= g.top
    requires (b + k * g.window) % U64_LIMIT == x && (x > g.top || x % g.page == 0)
    ensures Stops(g, b, n)
    decreases k
  {
    hide NextBase, WrapAdd;
    if b % g.page == 0 {
      n := g.top - b;
      AlignedStops(g, b, n);
    } else if HaltsAt(g, b) {
      n := 0;
    } else if k > 0 {
      WrapStep(b, g.window, k);
      n := OrbitStops(g, WrapAdd(b, g.window), k - 1, x);
      n := n + 1;
      assert NextBase(g, b) == WrapAdd(b, g.window) by { NextOffPage(g, b); }
    } else {
      assert false;
    }
  }

  lemma NextOffPage(g: Grid, b: u64)
    requires Usable(g) && !HaltsAt(g, b) && b % g.page != 0
    ensures NextBase(g, b) == WrapAdd(b, g.window)
  {
  }

  lemma {:induction false} NothingStops(g: Grid, b: u64, n: nat)
    requires Usable(g) && !CanStop(g) && b % TwoPart(g.window) == g.bottom % TwoPart(g.window)
    ensures !Stops(g, b, n)
    decreases n
  {
    hide WrapAdd, TwoPart, NextBase;
    WrapKeepsResidue(b, g.window);
    if n > 0 {
      NextOffPage(g, b);
      NothingStops(g, WrapAdd(b, g.window), n - 1);
    }
  }

  /**
   * For a window of whole pages the platform's answers do not matter: the loop
   * ends exactly when an address past the ceiling, or on a page boundary, is
   * the bottom plus a multiple of the largest power of two in the window.
   */
  lemma EndsExactly(g: Grid)
    requires Usable(g) && g.window % g.page == 0 && g.bottom <= g.top
    ensures Ends(g) <==> CanStop(g)
  {
    hide TwoPart, Stops;
    if CanStop(g) {
      var x: u64 :| x % TwoPart(g.window) == g.bottom % TwoPart(g.window) && (x > g.top || x % g.page == 0);
      var k := Reaches(g.bottom, g.window, x);
      var n := OrbitStops(g, g.bottom, k, x);
    } else {
      forall n: nat ensures !Stops(g, g.bottom, n) {
        NothingStops(g, g.bottom, n);
      }
    }
  }

  /** Two-byte pages, an odd bottom and a window of half the address space: the loop never ends. */
  lemma OddBottomNeverEnds(g: Grid)
    requires g.bottom == 1 && g.page == 2 && g.window == 0x8000_0000_0000_0000 && g.top == 0x8000_0000_0000_0002
    ensures !Degenerate(g) && !Ends(g)
  {
    var d := TwoPart(g.window);
    assert d == g.window by {
      PowerAt64();
      TwoPartOfPower(63);
    }
    EndsExactly(g);
  }

  // -------------------------------------------------------------------------
  // Any window: the worst answer
  // -------------------------------------------------------------------------

  /** The answer that lets the walk skip most: everything is refused, and one region covers every address. */
  const EVERYTHING_HELD := Probe(true, (b: u64, s: u64) => Refused, (b: u64) => Entry(true, 0, U64_LIMIT - 1, ""))

  function Worst(g: Grid): Grid {
    g.(probe := EVERYTHING_HELD)
  }

  /** The last base of the stretch of additions from `b` that do not wrap. */
  function LastOf(g: Grid, b: u64): (r: u64)
    requires g.window > 0
    ensures r >= b && r + g.window >= U64_LIMIT
    ensures r > b ==> b + g.window <= r
  {
    var k := (U64_LIMIT - 1 - b) / g.window;
    LastFits(U64_LIMIT - 1 - b, g.window);
    b + k * g.window
  }

  lemma LastFits(room: nat, w: nat)
    requires w > 0
    ensures 0 <= room / w * w <= room < room / w * w + w
    ensures room / w * w > 0 ==> w <= room / w * w
  {
    TimesGrows(1, room / w, w);
  }

  lemma LastOfLater(g: Grid, b: u64, k: nat)
    requires g.window > 0 && 0 <= b + k * g.window < U64_LIMIT
    ensures LastOf(g, b + k * g.window) == LastOf(g, b)
  {
    LastOfRest(U64_LIMIT - 1 - b, g.window, k);
  }

  lemma LastOfRest(room: nat, w: nat, k: nat)
    requires w > 0
    ensures k * w + (room - k * w) / w * w == room / w * w
  {
    var q := room / w;
    assert (q - k) * w == q * w - k * w;
    ResidueIs(room - k * w, q - k, w, room % w);
  }

  ghost predicate Forever(g: Grid, b: u64)
    requires Usable(g)
  {
    forall n: nat :: !Stops(g, b, n)
  }

  lemma ForeverGoesOn(g: Grid, b: u64)
    requires Usable(g) && Forever(g, b)
    ensures !HaltsAt(g, b) && Forever(g, NextBase(g, b))
  {
    hide HaltsAt, NextBase;
    assert !Stops(g, b, 0);
    forall n: nat ensures !Stops(g, NextBase(g, b), n) {
      assert !Stops(g, b, n + 1);
    }
  }

  /** A loop that never ends goes, by whatever jumps, through the last base of its stretch. */
  lemma {:induction false} PassesLast(g: Grid, b: u64)
    requires Usable(g) && Forever(g, b)
    ensures Forever(g, LastOf(g, b))
    decreases LastOf(g, b) - b
  {
    hide Forever, LastOf, Resume, Stops;
    if b < LastOf(g, b) {
      ForeverGoesOn(g, b);
      LastOfLater(g, b, 1);
      LastOfLater(g, b, ResumeFactor(g, b));
      PassesLast(g, NextBase(g, b));
    }
  }

  function ResumeFactor(g: Grid, b: u64): (k: nat)
    requires g.window > 0 && b + g.window < U64_LIMIT
    ensures k > 0 && b + k * g.window == Resume(g, b)
  {
    Jump(g, b) + 1
  }

  lemma WorstJumpsToLast(g: Grid, b: u64)
    requires Usable(g) && !HaltsAt(g, b) && b % g.page == 0
    ensures NextBase(Worst(g), b) == LastOf(g, b)
  {
    var h := Worst(g);
    var room := U64_LIMIT - 1 - (b + g.window);
    var q := room / g.window;
    assert room == q * g.window + room % g.window;
    assert U64_LIMIT - 1 - b == (q + 1) * g.window + room % g.window by {
      assert (q + 1) * g.window == q * g.window + g.window;
    }
    ResidueIs(U64_LIMIT - 1 - b, q + 1, g.window, room % g.window);
    assert Jump(h, b) == q;
  }

  lemma {:induction false} WorstIsForeverToo(g: Grid, b: u64, n: nat)
    requires Usable(g) && Forever(g, b)
    ensures !Stops(Worst(g), b, n)
    decreases n
  {
    hide Forever, LastOf, Resume, HaltsAt, NextBase;
    ForeverGoesOn(g, b);
    assert HaltsAt(Worst(g), b) == HaltsAt(g, b) by { SameHalts(g, b); }
    if n > 0 {
      if b % g.page == 0 {
        WorstJumpsToLast(g, b);
        PassesLast(g, b);
        WorstIsForeverToo(g, LastOf(g, b), n - 1);
      } else {
        NextOffPage(g, b);
        NextOffPage(Worst(g), b);
        WorstIsForeverToo(g, NextBase(g, b), n - 1);
      }
    }
  }

  lemma SameHalts(g: Grid, b: u64)
    requires Usable(g)
    ensures HaltsAt(Worst(g), b) == HaltsAt(g, b)
  {
  }

  /**
   * Which arguments are safe whatever the platform answers can be decided
   * without asking it: the loop ends for every probe exactly when it ends for
   * the one that holds everything in a single region.
   */
  lemma OneRegionIsWorst(g: Grid)
    requires Usable(g)
    ensures Ends(Worst(g)) <==> forall probe: Probe :: Ends(g.(probe := probe))
  {
    hide Stops;
    if Ends(Worst(g)) {
      forall probe: Probe ensures Ends(g.(probe := probe)) {
        WorstIsWorst(g.(probe := probe), g);
      }
    }
  }

  lemma WorstIsWorst(h: Grid, g: Grid)
    requires Usable(g) && h == g.(probe := h.probe) && Ends(Worst(g))
    ensures Ends(h)
  {
    hide Stops;
    assert Worst(h) == Worst(g);
    if !Ends(h) {
      var n: nat :| Stops(Worst(g), g.bottom, n);
      WorstIsForeverToo(h, h.bottom, n);
      assert false;
    }
  }

  /**
   * Room above the ceiling alone is not enough: with pages of two windows, one
   * region over every address sends the loop to the last window below 2^64,
   * off the pages, and from there back to its start.
   */
  lemma FarJumpNeverEnds(g: Grid)
    requires g.bottom == 0 && g.top == 10 && g.page == 4 && g.window == 2 && g.probe == EVERYTHING_HELD
    ensures !Degenerate(g) && g.top + g.window < U64_LIMIT && !Ends(g)
  {
    assert Jump(g, 0) == 0x7FFF_FFFF_FFFF_FFFE;
    assert NextBase(g, 0) == 0xFFFF_FFFF_FFFF_FFFE;
    assert NextBase(g, NextBase(g, 0)) == 0;
    assert After(g, 0, 2) == 0 by {
      assert After(g, NextBase(g, 0), 1) == After(g, 0, 0);
    }
    RepeatingNeverEnds(g, 0, 2);
  }
}
