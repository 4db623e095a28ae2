/** Result types and the fixed integer widths the repository computes in. */
module Wrappers {

  datatype Option<+T> = None | Some(value: T)

  datatype Result<+T, +E> = Ok(value: T) | Err(error: E)
}

module Words {
  const U32_LIMIT: int := 0x1_0000_0000
  const U64_LIMIT: int := 0x1_0000_0000_0000_0000
  const I64_LIMIT: int := 0x8000_0000_0000_0000

  type u32 = n: int | 0 <= n < U32_LIMIT
  type u64 = n: int | 0 <= n < U64_LIMIT
  type i64 = n: int | -I64_LIMIT <= n < I64_LIMIT

  /** Unsigned 64-bit addition wraps; written out wherever the source relies on (or suffers from) it. */
  function WrapAdd(a: u64, b: u64): (r: u64)
    ensures r == a + b || r == a + b - U64_LIMIT
    ensures a + b < U64_LIMIT <==> r >= a
  {
    if a + b < U64_LIMIT then a + b else a + b - U64_LIMIT
  }

  function WrapSub(a: u64, b: u64): (r: u64)
    ensures WrapAdd(r, b) == a
  {
    if a >= b then a - b else a - b + U64_LIMIT
  }
}

/** The few facts about products and quotients that page arithmetic needs. */
module Multiples {

  function Pow2(n: nat): (r: nat)
    ensures r > 0
  {
    if n == 0 then 1 else 2 * Pow2(n - 1)
  }

  lemma Regroup(a: int, b: int, c: int)
    ensures a * (b * c) == a * b * c
  {
  }

  lemma {:induction false} PowersMultiply(a: nat, b: nat)
    ensures Pow2(a + b) == Pow2(a) * Pow2(b)
  {
    if a > 0 {
      PowersMultiply(a - 1, b);
      Regroup(2, Pow2(a - 1), Pow2(b));
    }
  }

  lemma TimesGrows(x: int, y: int, m: nat)
    ensures x <= y ==> x * m <= y * m
  {
    if x <= y {
      assert y * m == x * m + (y - x) * m;
    }
  }

  lemma QuotientOfProduct(n: nat, m: nat)
    requires m > 0
    ensures n * m / m == n && n * m % m == 0
  {
    var q, r := n * m / m, n * m % m;
    assert n * m == q * m + r;
    TimesGrows(n + 1, q, m);
    TimesGrows(q + 1, n, m);
    assert (q + 1) * m == q * m + m && (n + 1) * m == n * m + m;
  }

  lemma Quotient(q: nat, m: nat, r: nat)
    requires m > 0 && r < m
    ensures (q * m + r) / m == q
  {
    var n := q * m + r;
    var p := n / m;
    assert n == p * m + n % m;
    TimesGrows(p + 1, q, m);
    TimesGrows(q + 1, p, m);
    assert (p + 1) * m == p * m + m && (q + 1) * m == q * m + m;
  }

  /** Rounding up to a multiple. */
  function CeilTo(n: nat, m: nat): nat
    requires m > 0
  {
    (n + (m - 1)) / m * m
  }

  lemma CeilIsLeastMultiple(n: nat, m: nat, k: nat)
    requires m > 0
    ensures n <= CeilTo(n, m) < n + m && CeilTo(n, m) % m == 0
    ensures k % m == 0 && k >= n ==> CeilTo(n, m) <= k
  {
    var q, r := (n + (m - 1)) / m, (n + (m - 1)) % m;
    assert n + (m - 1) == q * m + r;
    QuotientOfProduct(q, m);
    if k % m == 0 && n <= k < q * m {
      NextMultiple(k, q * m, m);
    }
  }

  /** Between two multiples there is room for a whole step. */
  lemma NextMultiple(a: nat, b: nat, m: nat)
    requires m > 0 && a % m == 0 && b % m == 0 && a < b
    ensures a + m <= b && (a + m) % m == 0
  {
    var q, r := a / m, b / m;
    assert a == q * m && b == r * m;
    TimesGrows(r, q, m);
    TimesGrows(q + 1, r, m);
    assert (q + 1) * m == q * m + m;
    QuotientOfProduct(q + 1, m);
  }

  lemma MultiplesSubtract(a: nat, m: nat)
    requires m > 0 && a % m == 0 && a >= m
    ensures (a - m) % m == 0
  {
    var q := a / m;
    assert a == q * m;
    TimesGrows(q, 0, m);
    assert a - m == (q - 1) * m;
    QuotientOfProduct(q - 1, m);
  }

  lemma MultiplesAdd(a: nat, b: nat, k: nat, m: nat)
    requires m > 0 && a % m == 0 && b % m == 0
    ensures (a + k * b) % m == 0
  {
    var q := a / m + k * (b / m);
    assert a == a / m * m && b == b / m * m;
    assert k * b == k * (b / m) * m;
    assert a + k * b == q * m;
    QuotientOfProduct(q, m);
  }
}
