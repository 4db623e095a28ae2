/** Where the constants of SHA-256 come from, and what its word functions do bit by bit. */
module Sha256Constants {
  import opened Multiples
  import opened Sha256

  // -------------------------------------------------------------------------
  // The first sixty-four primes
  // -------------------------------------------------------------------------

  ghost predicate IsPrime(n: nat) {
    n >= 2 && forall d :: 2 <= d < n ==> n % d != 0
  }

  /** Trial division, enough below 324. */
  predicate PassesTrial(n: nat) {
    && n >= 2
    && (n == 2 || n % 2 != 0) && (n == 3 || n % 3 != 0) && (n == 5 || n % 5 != 0) && (n == 7 || n % 7 != 0)
    && (n == 11 || n % 11 != 0) && (n == 13 || n % 13 != 0) && (n == 17 || n % 17 != 0)
  }

  lemma DividesOn(n: nat, d: nat, q: nat)
    requires d > 0 && q > 0 && d % q == 0 && n % d == 0
    ensures n % q == 0
  {
    var k, j := n / d, d / q;
    assert n == k * d && d == j * q;
    assert k * (j * q) == k * j * q;
    QuotientOfProduct(k * j, q);
  }

  lemma NoSmallDivisor(n: nat, d: nat)
    requires PassesTrial(n) && 2 <= d <= 17 && d < n
    ensures n % d != 0
  {
    if n % d == 0 {
      var q := if d % 2 == 0 then 2 else if d % 3 == 0 then 3 else d;
      DividesOn(n, d, q);
      assert false;
    }
  }

  lemma TrialIsEnough(n: nat)
    requires n < 324
    ensures PassesTrial(n) <==> IsPrime(n)
  {
    if PassesTrial(n) {
      forall d | 2 <= d < n ensures n % d != 0 {
        if d <= 17 {
          NoSmallDivisor(n, d);
        } else if n % d == 0 {
          var e := n / d;
          assert n == d * e;
          TimesGrows(18, e, 18);
          TimesGrows(e, 1, d);
          TimesGrows(18, d, e);
          QuotientOfProduct(d, e);
          NoSmallDivisor(n, e);
        }
      }
    }
  }

  /** The first number above `n`, up to 311, that passes. */
  function NextPrime(n: nat): nat
    decreases 311 - n
  {
    if n >= 311 || PassesTrial(n + 1) then n + 1 else NextPrime(n + 1)
  }

  lemma {:induction false} NextPrimeIsNext(n: nat)
    requires n < 311
    ensures n < NextPrime(n) <= 311 && IsPrime(NextPrime(n)) && forall m :: n < m < NextPrime(n) ==> !IsPrime(m)
    decreases 311 - n
  {
    hide IsPrime, PassesTrial;
    TrialIsEnough(n + 1);
    if !PassesTrial(n + 1) {
      assert n + 1 < 311 by { LastIsPrime(); }
      NextPrimeIsNext(n + 1);
    }
  }

  lemma LastIsPrime()
    ensures PassesTrial(311)
  {
  }

  function Prime(t: nat): nat
    requires t < 64
  {
    [[2, 3, 5, 7, 11, 13, 17, 19],
     [23, 29, 31, 37, 41, 43, 47, 53],
     [59, 61, 67, 71, 73, 79, 83, 89],
     [97, 101, 103, 107, 109, 113, 127, 131],
     [137, 139, 149, 151, 157, 163, 167, 173],
     [179, 181, 191, 193, 197, 199, 211, 223],
     [227, 229, 233, 239, 241, 251, 257, 263],
     [269, 271, 277, 281, 283, 293, 307, 311]][t / 8][t % 8]
  }

  // -------------------------------------------------------------------------
  // Fractions of roots
  // -------------------------------------------------------------------------

  /** `k` is the first 32 bits of the fraction of the cube root of `p`, and `n` is its integer part. */
  predicate IsCubeRoot(p: nat, n: nat, k: nat) {
    var r := n * 0x1_0000_0000 + k;
    k < 0x1_0000_0000 && r * r * r <= p * 0x1_0000_0000_0000_0000_0000_0000 < (r + 1) * (r + 1) * (r + 1)
  }

  predicate IsSquareRoot(p: nat, n: nat, k: nat) {
    var r := n * 0x1_0000_0000 + k;
    k < 0x1_0000_0000 && r * r <= p * 0x1_0000_0000_0000_0000 < (r + 1) * (r + 1)
  }

  ghost predicate HasCubeRoot(p: nat, k: nat) {
    exists n: nat :: IsCubeRoot(p, n, k)
  }

  ghost predicate HasSquareRoot(p: nat, k: nat) {
    exists n: nat :: IsSquareRoot(p, n, k)
  }

  /** Constant `t` belongs to prime `t`, and prime `t + 1` is the next one. */
  ghost predicate IsConstant(t: nat)
    requires t < 64
  {
    && (t < 63 ==> NextPrime(Prime(t)) == Prime(t + 1))
    && HasCubeRoot(Prime(t), RoundConstant(t) as int)
  }

  lemma ConstantIs(t: nat, p: nat, next: nat, n: nat, k: bv32)
    requires t < 64 && Prime(t) == p && RoundConstant(t) == k
    requires t < 63 ==> Prime(t + 1) == next && NextPrime(p) == next
    requires IsCubeRoot(p, n, k as int)
    ensures IsConstant(t)
  {
    hide NextPrime, Prime, RoundConstant, IsCubeRoot;
  }

  lemma ConstantsFrom0(t: nat)
    requires 0 <= t < 4
    ensures IsConstant(t)
  {
    hide IsConstant;
    if t == 0 {
      ConstantIs(0, 2, 3, 1, 0x428a2f98);
    } else if t == 1 {
      ConstantIs(1, 3, 5, 1, 0x71374491);
    } else if t == 2 {
      ConstantIs(2, 5, 7, 1, 0xb5c0fbcf);
    } else {
      assert NextPrime(8) == 11;
      ConstantIs(3, 7, 11, 1, 0xe9b5dba5);
    }
  }

  lemma ConstantsFrom4(t: nat)
    requires 4 <= t < 8
    ensures IsConstant(t)
  {
    hide IsConstant;
    if t == 4 {
      ConstantIs(4, 11, 13, 2, 0x3956c25b);
    } else if t == 5 {
      assert NextPrime(14) == 17;
      ConstantIs(5, 13, 17, 2, 0x59f111f1);
    } else if t == 6 {
      ConstantIs(6, 17, 19, 2, 0x923f82a4);
    } else {
      assert NextPrime(20) == 23;
      assert Prime(8) == 23;
      ConstantIs(7, 19, 23, 2, 0xab1c5ed5);
    }
  }

  lemma ConstantsFrom8(t: nat)
    requires 8 <= t < 12
    ensures IsConstant(t)
  {
    hide IsConstant;
    if t == 8 {
      assert NextPrime(26) == 29;
      ConstantIs(8, 23, 29, 2, 0xd807aa98);
    } else if t == 9 {
      ConstantIs(9, 29, 31, 3, 0x12835b01);
    } else if t == 10 {
      assert NextPrime(34) == 37;
      ConstantIs(10, 31, 37, 3, 0x243185be);
    } else {
      assert NextPrime(38) == 41;
      ConstantIs(11, 37, 41, 3, 0x550c7dc3);
    }
  }

  lemma ConstantsFrom12(t: nat)
    requires 12 <= t < 16
    ensures IsConstant(t)
  {
    hide IsConstant;
    if t == 12 {
      ConstantIs(12, 41, 43, 3, 0x72be5d74);
    } else if t == 13 {
      assert NextPrime(44) == 47;
      ConstantIs(13, 43, 47, 3, 0x80deb1fe);
    } else if t == 14 {
      assert NextPrime(50) == 53;
      ConstantIs(14, 47, 53, 3, 0x9bdc06a7);
    } else {
      assert NextPrime(56) == 59;
      assert Prime(16) == 59;
      ConstantIs(15, 53, 59, 3, 0xc19bf174);
    }
  }

  lemma ConstantsFrom16(t: nat)
    requires 16 <= t < 20
    ensures IsConstant(t)
  {
    hide IsConstant;
    if t == 16 {
      ConstantIs(16, 59, 61, 3, 0xe49b69c1);
    } else if t == 17 {
      assert NextPrime(64) == 67;
      ConstantIs(17, 61, 67, 3, 0xefbe4786);
    } else if t == 18 {
      assert NextPrime(68) == 71;
      ConstantIs(18, 67, 71, 4, 0x0fc19dc6);
    } else {
      ConstantIs(19, 71, 73, 4, 0x240ca1cc);
    }
  }

  lemma ConstantsFrom20(t: nat)
    requires 20 <= t < 24
    ensures IsConstant(t)
  {
    hide IsConstant;
    if t == 20 {
      assert NextPrime(76) == 79;
      ConstantIs(20, 73, 79, 4, 0x2de92c6f);
    } else if t == 21 {
      assert NextPrime(80) == 83;
      ConstantIs(21, 79, 83, 4, 0x4a7484aa);
    } else if t == 22 {
      assert NextPrime(86) == 89;
      ConstantIs(22, 83, 89, 4, 0x5cb0a9dc);
    } else {
      assert NextPrime(94) == 97;
      assert Prime(24) == 97;
      ConstantIs(23, 89, 97, 4, 0x76f988da);
    }
  }

  lemma ConstantsFrom24(t: nat)
    requires 24 <= t < 28
    ensures IsConstant(t)
  {
    hide IsConstant;
    if t == 24 {
      assert NextPrime(98) == 101;
      ConstantIs(24, 97, 101, 4, 0x983e5152);
    } else if t == 25 {
      ConstantIs(25, 101, 103, 4, 0xa831c66d);
    } else if t == 26 {
      assert NextPrime(104) == 107;
      ConstantIs(26, 103, 107, 4, 0xb00327c8);
    } else {
      ConstantIs(27, 107, 109, 4, 0xbf597fc7);
    }
  }

  lemma ConstantsFrom28(t: nat)
    requires 28 <= t < 32
    ensures IsConstant(t)
  {
    hide IsConstant;
    if t == 28 {
      assert NextPrime(110) == 113;
      ConstantIs(28, 109, 113, 4, 0xc6e00bf3);
    } else if t == 29 {
      assert NextPrime(124) == 127;
      ConstantIs(29, 113, 127, 4, 0xd5a79147);
    } else if t == 30 {
      assert NextPrime(128) == 131;
      ConstantIs(30, 127, 131, 5, 0x06ca6351);
    } else {
      assert NextPrime(134) == 137;
      assert Prime(32) == 137;
      ConstantIs(31, 131, 137, 5, 0x14292967);
    }
  }

  lemma ConstantsFrom32(t: nat)
    requires 32 <= t < 36
    ensures IsConstant(t)
  {
    hide IsConstant;
    if t == 32 {
      ConstantIs(32, 137, 139, 5, 0x27b70a85);
    } else if t == 33 {
      assert NextPrime(146) == 149;
      ConstantIs(33, 139, 149, 5, 0x2e1b2138);
    } else if t == 34 {
      ConstantIs(34, 149, 151, 5, 0x4d2c6dfc);
    } else {
      assert NextPrime(154) == 157;
      ConstantIs(35, 151, 157, 5, 0x53380d13);
    }
  }

  lemma ConstantsFrom36(t: nat)
    requires 36 <= t < 40
    ensures IsConstant(t)
  {
    hide IsConstant;
    if t == 36 {
      assert NextPrime(160) == 163;
      ConstantIs(36, 157, 163, 5, 0x650a7354);
    } else if t == 37 {
      assert NextPrime(164) == 167;
      ConstantIs(37, 163, 167, 5, 0x766a0abb);
    } else if t == 38 {
      assert NextPrime(170) == 173;
      ConstantIs(38, 167, 173, 5, 0x81c2c92e);
    } else {
      assert NextPrime(176) == 179;
      assert Prime(40) == 179;
      ConstantIs(39, 173, 179, 5, 0x92722c85);
    }
  }

  lemma ConstantsFrom40(t: nat)
    requires 40 <= t < 44
    ensures IsConstant(t)
  {
    hide IsConstant;
    if t == 40 {
      ConstantIs(40, 179, 181, 5, 0xa2bfe8a1);
    } else if t == 41 {
      assert NextPrime(188) == 191;
      ConstantIs(41, 181, 191, 5, 0xa81a664b);
    } else if t == 42 {
      ConstantIs(42, 191, 193, 5, 0xc24b8b70);
    } else {
      assert NextPrime(194) == 197;
      ConstantIs(43, 193, 197, 5, 0xc76c51a3);
    }
  }

  lemma ConstantsFrom44(t: nat)
    requires 44 <= t < 48
    ensures IsConstant(t)
  {
    hide IsConstant;
    if t == 44 {
      ConstantIs(44, 197, 199, 5, 0xd192e819);
    } else if t == 45 {
      assert NextPrime(208) == 211;
      ConstantIs(45, 199, 211, 5, 0xd6990624);
    } else if t == 46 {
      assert NextPrime(220) == 223;
      ConstantIs(46, 211, 223, 5, 0xf40e3585);
    } else {
      assert NextPrime(224) == 227;
      assert Prime(48) == 227;
      ConstantIs(47, 223, 227, 6, 0x106aa070);
    }
  }

  lemma ConstantsFrom48(t: nat)
    requires 48 <= t < 52
    ensures IsConstant(t)
  {
    hide IsConstant;
    if t == 48 {
      ConstantIs(48, 227, 229, 6, 0x19a4c116);
    } else if t == 49 {
      assert NextPrime(230) == 233;
      ConstantIs(49, 229, 233, 6, 0x1e376c08);
    } else if t == 50 {
      assert NextPrime(236) == 239;
      ConstantIs(50, 233, 239, 6, 0x2748774c);
    } else {
      ConstantIs(51, 239, 241, 6, 0x34b0bcb5);
    }
  }

  lemma ConstantsFrom52(t: nat)
    requires 52 <= t < 56
    ensures IsConstant(t)
  {
    hide IsConstant;
    if t == 52 {
      assert NextPrime(248) == 251;
      ConstantIs(52, 241, 251, 6, 0x391c0cb3);
    } else if t == 53 {
      assert NextPrime(254) == 257;
      ConstantIs(53, 251, 257, 6, 0x4ed8aa4a);
    } else if t == 54 {
      assert NextPrime(260) == 263;
      ConstantIs(54, 257, 263, 6, 0x5b9cca4f);
    } else {
      assert NextPrime(266) == 269;
      assert Prime(56) == 269;
      ConstantIs(55, 263, 269, 6, 0x682e6ff3);
    }
  }

  lemma ConstantsFrom56(t: nat)
    requires 56 <= t < 60
    ensures IsConstant(t)
  {
    hide IsConstant;
    if t == 56 {
      ConstantIs(56, 269, 271, 6, 0x748f82ee);
    } else if t == 57 {
      assert NextPrime(274) == 277;
      ConstantIs(57, 271, 277, 6, 0x78a5636f);
    } else if t == 58 {
      assert NextPrime(278) == 281;
      ConstantIs(58, 277, 281, 6, 0x84c87814);
    } else {
      ConstantIs(59, 281, 283, 6, 0x8cc70208);
    }
  }

  lemma ConstantsFrom60(t: nat)
    requires 60 <= t < 64
    ensures IsConstant(t)
  {
    hide IsConstant;
    if t == 60 {
      assert NextPrime(290) == 293;
      ConstantIs(60, 283, 293, 6, 0x90befffa);
    } else if t == 61 {
      assert NextPrime(304) == 307;
      ConstantIs(61, 293, 307, 6, 0xa4506ceb);
    } else if t == 62 {
      assert NextPrime(308) == 311;
      ConstantIs(62, 307, 311, 6, 0xbef9a3f7);
    } else {
      ConstantIs(63, 311, 0, 6, 0xc67178f2);
    }
  }

  /** Section 4.2.2: the round constants are the fractions of the cube roots of the first sixty-four primes. */
  lemma RoundConstantsAreRoots(t: nat)
    requires t < 64
    ensures Prime(0) == 2 && IsConstant(t)
  {
    hide IsConstant, RoundConstant;
    if t < 32 {
      if t < 4 {
        ConstantsFrom0(t);
      } else if t < 8 {
        ConstantsFrom4(t);
      } else if t < 12 {
        ConstantsFrom8(t);
      } else if t < 16 {
        ConstantsFrom12(t);
      } else if t < 20 {
        ConstantsFrom16(t);
      } else if t < 24 {
        ConstantsFrom20(t);
      } else if t < 28 {
        ConstantsFrom24(t);
      } else {
        ConstantsFrom28(t);
      }
    } else {
      if t < 36 {
        ConstantsFrom32(t);
      } else if t < 40 {
        ConstantsFrom36(t);
      } else if t < 44 {
        ConstantsFrom40(t);
      } else if t < 48 {
        ConstantsFrom44(t);
      } else if t < 52 {
        ConstantsFrom48(t);
      } else if t < 56 {
        ConstantsFrom52(t);
      } else if t < 60 {
        ConstantsFrom56(t);
      } else {
        ConstantsFrom60(t);
      }
    }
  }

  /** Section 5.3.3: the initial hash is the fractions of the square roots of the first eight. */
  lemma InitialHashIsRoots()
    ensures forall i :: 0 <= i < 8 ==> HasSquareRoot(Prime(i), InitialHash()[i] as int)
  {
    assert IsSquareRoot(Prime(0), 1, InitialHash()[0] as int);
    assert IsSquareRoot(Prime(1), 1, InitialHash()[1] as int);
    assert IsSquareRoot(Prime(2), 2, InitialHash()[2] as int);
    assert IsSquareRoot(Prime(3), 2, InitialHash()[3] as int);
    assert IsSquareRoot(Prime(4), 3, InitialHash()[4] as int);
    assert IsSquareRoot(Prime(5), 3, InitialHash()[5] as int);
    assert IsSquareRoot(Prime(6), 4, InitialHash()[6] as int);
    assert IsSquareRoot(Prime(7), 4, InitialHash()[7] as int);
    hide IsSquareRoot, Prime;
  }

  // -------------------------------------------------------------------------
  // Word functions
  // -------------------------------------------------------------------------

  /** The rotation is the rotation of the 32-bit word, for every count the functions use. */
  lemma RotrRotates(x: bv32)
    ensures Rotr(x, 2) == x.RotateRight(2) && Rotr(x, 13) == x.RotateRight(13) && Rotr(x, 22) == x.RotateRight(22)
    ensures Rotr(x, 6) == x.RotateRight(6) && Rotr(x, 11) == x.RotateRight(11) && Rotr(x, 25) == x.RotateRight(25)
    ensures Rotr(x, 7) == x.RotateRight(7) && Rotr(x, 18) == x.RotateRight(18)
    ensures Rotr(x, 17) == x.RotateRight(17) && Rotr(x, 19) == x.RotateRight(19)
  {
  }

  /** On any set of bits where the first word is all ones, the second word; where it is all zeros, the third. */
  lemma ChChooses(x: bv32, y: bv32, z: bv32, bits: bv32)
    ensures x & bits == bits ==> Ch(x, y, z) & bits == y & bits
    ensures x & bits == 0 ==> Ch(x, y, z) & bits == z & bits
  {
  }

  /** On any set of bits where the first two words agree, what they have there. */
  lemma MajIsMajority(x: bv32, y: bv32, z: bv32, bits: bv32)
    requires x & bits == y & bits
    ensures Maj(x, y, z) & bits == x & bits
  {
  }

  /** So on any set of bits where some two of the three agree. */
  lemma MajIgnoresOrder(x: bv32, y: bv32, z: bv32)
    ensures Maj(x, y, z) == Maj(y, z, x) == Maj(z, x, y)
  {
  }
}
