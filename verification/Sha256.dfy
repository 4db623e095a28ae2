/** SHA-256: the definition of FIPS 180-4, and the streaming object that computes it. */
module Sha256 {
  import opened Words
  import Multiples

  // -------------------------------------------------------------------------
  // FIPS 180-4
  // -------------------------------------------------------------------------

  /** Section 4.2.2. */
  function RoundConstant(t: nat): bv32
    requires t < 64
  {
    [[0x428a2f98, 0x71374491, 0xb5c0fbcf, 0xe9b5dba5, 0x3956c25b, 0x59f111f1, 0x923f82a4, 0xab1c5ed5],
     [0xd807aa98, 0x12835b01, 0x243185be, 0x550c7dc3, 0x72be5d74, 0x80deb1fe, 0x9bdc06a7, 0xc19bf174],
     [0xe49b69c1, 0xefbe4786, 0x0fc19dc6, 0x240ca1cc, 0x2de92c6f, 0x4a7484aa, 0x5cb0a9dc, 0x76f988da],
     [0x983e5152, 0xa831c66d, 0xb00327c8, 0xbf597fc7, 0xc6e00bf3, 0xd5a79147, 0x06ca6351, 0x14292967],
     [0x27b70a85, 0x2e1b2138, 0x4d2c6dfc, 0x53380d13, 0x650a7354, 0x766a0abb, 0x81c2c92e, 0x92722c85],
     [0xa2bfe8a1, 0xa81a664b, 0xc24b8b70, 0xc76c51a3, 0xd192e819, 0xd6990624, 0xf40e3585, 0x106aa070],
     [0x19a4c116, 0x1e376c08, 0x2748774c, 0x34b0bcb5, 0x391c0cb3, 0x4ed8aa4a, 0x5b9cca4f, 0x682e6ff3],
     [0x748f82ee, 0x78a5636f, 0x84c87814, 0x8cc70208, 0x90befffa, 0xa4506ceb, 0xbef9a3f7, 0xc67178f2]][t / 8][t % 8]
  }

  function Rotr(x: bv32, n: nat): bv32
    requires n < 32
  {
    (x >> n) | (x << (32 - n))
  }

  // Section 4.1.2.

  function Ch(x: bv32, y: bv32, z: bv32): bv32 { (x & y) ^ (!x & z) }

  function Maj(x: bv32, y: bv32, z: bv32): bv32 { (x & y) ^ (x & z) ^ (y & z) }

  function BigSigma0(x: bv32): bv32 { Rotr(x, 2) ^ Rotr(x, 13) ^ Rotr(x, 22) }

  function BigSigma1(x: bv32): bv32 { Rotr(x, 6) ^ Rotr(x, 11) ^ Rotr(x, 25) }

  function SmallSigma0(x: bv32): bv32 { Rotr(x, 7) ^ Rotr(x, 18) ^ (x >> 3) }

  function SmallSigma1(x: bv32): bv32 { Rotr(x, 17) ^ Rotr(x, 19) ^ (x >> 10) }

  type byte = n: int | 0 <= n < 256

  type Block = b: seq<byte> | |b| == 64 witness seq(64, i => 0)

  type HashValue = h: seq<bv32> | |h| == 8 witness seq(8, i => 0)

  /** Section 5.3.3. */
  function InitialHash(): HashValue {
    [0x6a09e667, 0xbb67ae85, 0x3c6ef372, 0xa54ff53a,
     0x510e527f, 0x9b05688c, 0x1f83d9ab, 0x5be0cd19]
  }

  /** A big-endian word of a block. */
  function WordAt(b: Block, t: nat): bv32
    requires t < 16
  {
    var w0: int, w1: int, w2: int, w3: int := b[4 * t], b[4 * t + 1], b[4 * t + 2], b[4 * t + 3];
    (((w0 * 256 + w1) * 256 + w2) * 256 + w3) as bv32
  }

  /** Addition modulo 2^32. */
  function Sum(x: bv32, y: bv32): bv32 { x + y }

  /** Section 6.2.2, step 1: the next word of the message schedule. */
  function NextWord(b: Block, w: seq<bv32>): bv32
    requires |w| < 64
  {
    var t := |w|;
    if t < 16 then WordAt(b, t)
    else Sum(Sum(Sum(w[t - 16], SmallSigma0(w[t - 15])), w[t - 7]), SmallSigma1(w[t - 2]))
  }

  /** The first `n` words of the message schedule. */
  function Schedule(b: Block, n: nat): (w: seq<bv32>)
    requires n <= 64
    ensures |w| == n
  {
    if n == 0 then [] else Schedule(b, n - 1) + [NextWord(b, Schedule(b, n - 1))]
  }

  lemma ScheduleSteps(b: Block, n: nat)
    requires n < 64
    ensures Schedule(b, 0) == []
    ensures Schedule(b, n + 1) == Schedule(b, n) + [NextWord(b, Schedule(b, n))]
  {
    hide NextWord;
  }

  datatype Working = Working(a: bv32, b: bv32, c: bv32, d: bv32, e: bv32, f: bv32, g: bv32, h: bv32)

  /** Section 6.2.2, step 3. */
  function Round(v: Working, k: bv32, w: bv32): Working {
    var t1 := Sum(Sum(Sum(Sum(v.h, BigSigma1(v.e)), Ch(v.e, v.f, v.g)), k), w);
    var t2 := Sum(BigSigma0(v.a), Maj(v.a, v.b, v.c));
    Working(Sum(t1, t2), v.a, v.b, v.c, Sum(v.d, t1), v.e, v.f, v.g)
  }

  function Rounds(v: Working, w: seq<bv32>, t: nat): Working
    requires t <= 64 == |w|
  {
    if t == 0 then v else Round(Rounds(v, w, t - 1), RoundConstant(t - 1), w[t - 1])
  }

  lemma RoundsStep(v: Working, w: seq<bv32>, t: nat)
    requires t < 64 == |w|
    ensures Rounds(v, w, 0) == v
    ensures Rounds(v, w, t + 1) == Round(Rounds(v, w, t), RoundConstant(t), w[t])
  {
    hide Round, RoundConstant;
  }

  function FromHash(h: HashValue): Working {
    Working(h[0], h[1], h[2], h[3], h[4], h[5], h[6], h[7])
  }

  /** Section 6.2.2, step 4. */
  function AddBack(h: HashValue, v: Working): HashValue {
    seq(8, i requires 0 <= i < 8 => Sum(h[i], [v.a, v.b, v.c, v.d, v.e, v.f, v.g, v.h][i]))
  }

  function Compress(h: HashValue, b: Block): HashValue {
    AddBack(h, Rounds(FromHash(h), Schedule(b, 64), 64))
  }

  /** The compression folded over whole blocks. */
  function HashBlocks(data: seq<byte>): HashValue
    requires |data| % 64 == 0
  {
    if data == [] then InitialHash() else Compress(HashBlocks(data[..|data| - 64]), data[|data| - 64..])
  }

  function Zeros(n: nat): (z: seq<byte>)
    ensures |z| == n
  {
    if n == 0 then [] else Zeros(n - 1) + [0]
  }

  function Power256(n: nat): (p: nat)
    ensures p > 0
  {
    if n == 0 then 1 else 256 * Power256(n - 1)
  }

  /** The last `k` bytes of a number, most significant first. */
  function BigEndian(n: nat, k: nat): (s: seq<byte>)
    ensures |s| == k
  {
    if k == 0 then [] else BigEndian(n / 256, k - 1) + [n % 256]
  }

  function FromBigEndian(s: seq<byte>): nat {
    if s == [] then 0 else FromBigEndian(s[..|s| - 1]) * 256 + s[|s| - 1]
  }

  lemma QuotientFits(n: nat, p: nat)
    requires n < 256 * p
    ensures n / 256 < p && n == n / 256 * 256 + n % 256
  {
  }

  lemma {:induction false} BigEndianRoundTrip(n: nat, k: nat)
    requires n < Power256(k)
    ensures FromBigEndian(BigEndian(n, k)) == n
  {
    if k > 0 {
      var s := BigEndian(n, k);
      assert s[..k - 1] == BigEndian(n / 256, k - 1) && s[k - 1] == n % 256;
      assert FromBigEndian(s) == FromBigEndian(s[..k - 1]) * 256 + s[k - 1];
      QuotientFits(n, Power256(k - 1));
      hide BigEndian, FromBigEndian, Power256;
      BigEndianRoundTrip(n / 256, k - 1);
    }
  }

  /** Any one byte by shifting and masking. */
  lemma {:induction false} BigEndianByte(n: nat, k: nat, i: nat)
    requires i < k
    ensures BigEndian(n, k)[i] == n / Power256(k - 1 - i) % 256
    decreases k
  {
    if i == k - 1 {
      assert Power256(0) == 1;
    } else {
      BigEndianByte(n / 256, k - 1, i);
      DivideTwice(n, Power256(k - 2 - i));
    }
  }

  lemma DivideTwice(n: nat, p: nat)
    requires p > 0
    ensures n / 256 / p == n / (256 * p)
  {
    var m := n / 256;
    var q, r := m / p, m % p;
    assert m == q * p + r && n == m * 256 + n % 256;
    assert q * p * 256 == q * (256 * p);
    Multiples.Quotient(q, 256 * p, r * 256 + n % 256);
  }

  /** The zero bytes between the end marker and the length. */
  function ZeroCount(length: nat): (k: nat)
    ensures k < 64 && (length + 1 + k) % 64 == 56
  {
    (55 - length) % 64
  }

  /** The bit length modulo 2^64. */
  function LengthField(length: nat): (s: seq<byte>)
    ensures |s| == 8
  {
    BigEndian(length * 8 % U64_LIMIT, 8)
  }

  lemma PaddingFills(length: nat, tail: nat)
    requires tail == 1 + ZeroCount(length) + 8
    ensures (length + tail) % 64 == 0
  {
  }

  /** Section 5.1.1. */
  function Padding(length: nat): (tail: seq<byte>)
    ensures (length + |tail|) % 64 == 0 && |tail| >= 9
  {
    PaddingFills(length, 1 + ZeroCount(length) + 8);
    [0x80] + Zeros(ZeroCount(length)) + LengthField(length)
  }

  function Pad(m: seq<byte>): (p: seq<byte>)
    ensures |p| % 64 == 0
  {
    m + Padding(|m|)
  }

  function BytesOf(w: bv32): (s: seq<byte>)
    ensures |s| == 4
  {
    BigEndian(w as nat, 4)
  }

  function Serialize(h: seq<bv32>): (s: seq<byte>)
    ensures |s| == 4 * |h|
  {
    if h == [] then [] else Serialize(h[..|h| - 1]) + BytesOf(h[|h| - 1])
  }

  /** The digest of a message. */
  function Digest(m: seq<byte>): (d: seq<byte>)
    ensures |d| == 32
  {
    Serialize(HashBlocks(Pad(m)))
  }

  lemma ZeroCountIsSmallest(length: nat, j: nat)
    requires j < ZeroCount(length)
    ensures (length + 1 + j) % 64 != 56
  {
  }

  /** A padded message of up to 2^61 bytes ends in its own length in bits. */
  lemma PaddingEndsInLength(m: seq<byte>)
    requires |m| < 0x2000_0000_0000_0000
    ensures m + [0x80] <= Pad(m)
    ensures FromBigEndian(Pad(m)[|Pad(m)| - 8..]) == |m| * 8
  {
    hide Power256, BigEndian, FromBigEndian, Zeros, ZeroCount;
    var bits := |m| * 8;
    assert Pad(m)[|Pad(m)| - 8..] == Padding(|m|)[|Padding(|m|)| - 8..] == BigEndian(bits, 8);
    Power256At8();
    BigEndianRoundTrip(bits, 8);
  }

  lemma Power256At8()
    ensures Power256(8) == U64_LIMIT
  {
    assert Power256(2) == 65536;
    assert Power256(4) == 65536 * Power256(2);
    assert Power256(6) == 65536 * Power256(4);
    assert Power256(8) == 65536 * Power256(6);
  }
}
