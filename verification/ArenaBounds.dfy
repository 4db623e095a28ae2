/** Where the Linux arenas begin and end. */
module ArenaBounds {
  import opened Words
  import opened Multiples

  /** `arena_ceiling_for`: the default mapping window, rounded up; unrounded where rounding would wrap. */
  function Ceiling(maxUser: u64, granularity: u64, defaultWindow: u64): nat {
    var effective := if maxUser < defaultWindow then maxUser else defaultWindow;
    if granularity == 0 then maxUser
    else if effective > U64_LIMIT - 1 - granularity then effective
    else CeilTo(effective, granularity)
  }

  /** `arena_floor_for`: the start of the bucket that ends at or holds the top; both steps wrap at 64 bits. */
  function FloorOf(maxUser: u64, span: u64): int {
    if span == 0 || maxUser < 2 * span % U64_LIMIT then 0 else WrapSub(maxUser, 1) / span * span
  }

  /** The ceiling never cuts into the window, overshoots it by less than a bucket, and stays a 64-bit address. */
  lemma CeilingHoldsTheWindow(maxUser: u64, granularity: u64, defaultWindow: u64)
    requires granularity > 0
    ensures var effective := if maxUser < defaultWindow then maxUser else defaultWindow;
      var c := Ceiling(maxUser, granularity, defaultWindow);
      && effective <= c < effective + granularity && c < U64_LIMIT
      && (c % granularity == 0 || effective + granularity >= U64_LIMIT)
  {
    CeilIsLeastMultiple(if maxUser < defaultWindow then maxUser else defaultWindow, granularity, 0);
  }

  /**
   * A non-zero floor is a bucket boundary below the top by at most one bucket,
   * exact multiples included; it is non-zero exactly when two spans fit.
   */
  lemma FloorIsTopBucket(maxUser: u64, span: u64)
    requires maxUser > 0
    ensures var f := FloorOf(maxUser, span);
      f != 0 ==> f % span == 0 && f < maxUser <= f + span
    ensures span > 0 && 2 * span < U64_LIMIT ==> (FloorOf(maxUser, span) != 0 <==> maxUser >= 2 * span)
  {
    if span > 0 {
      var q, r := (maxUser - 1) / span, (maxUser - 1) % span;
      assert maxUser - 1 == q * span + r;
      QuotientOfProduct(q, span);
      if maxUser >= 2 * span {
        TimesGrows(q, 0, span);
      }
    }
  }

  /** An empty address space has floor zero for every span but 2^63, where both steps wrap. */
  lemma EmptySpaceHasNoFloor(span: u64)
    ensures FloorOf(0, span) != 0 <==> span == 0x8000_0000_0000_0000
  {
    if span == 0x8000_0000_0000_0000 {
      assert WrapSub(0, 1) / span == 1;
    } else if span > 0 {
      assert 2 * span % U64_LIMIT > 0;
    }
  }
}
