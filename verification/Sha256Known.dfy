/** The two digests that FIPS 180-4 gives as examples, worked out step by step. */
module Sha256Known {
  import opened Sha256
  import Multiples

  // -------------------------------------------------------------------------
  // Eight steps at a time
  // -------------------------------------------------------------------------

  /** One round turns a, ..., h into x, a, b, c, y, e, f, g. */
  predicate Turns(a: bv32, b: bv32, c: bv32, d: bv32, e: bv32, f: bv32, g: bv32, h: bv32,
                  k: bv32, w: bv32, x: bv32, y: bv32)
  {
    Round(Working(a, b, c, d, e, f, g, h), k, w) == Working(x, a, b, c, y, e, f, g)
  }

  /** The word that the schedule derives from four earlier ones. */
  predicate Mixes(w16: bv32, w15: bv32, w7: bv32, w2: bv32, w: bv32) {
    Sum(Sum(Sum(w16, SmallSigma0(w15)), w7), SmallSigma1(w2)) == w
  }

  /** Eight neighbouring words of a list. */
  predicate Eight(w: seq<bv32>, t: nat, w0: bv32, w1: bv32, w2: bv32, w3: bv32,
                  w4: bv32, w5: bv32, w6: bv32, w7: bv32)
  {
    && |w| == 64 && t + 8 <= 64
    && w[t] == w0 && w[t + 1] == w1 && w[t + 2] == w2 && w[t + 3] == w3
    && w[t + 4] == w4 && w[t + 5] == w5 && w[t + 6] == w6 && w[t + 7] == w7
  }

  lemma {:induction false} EarlierWord(b: Block, n: nat, t: nat)
    requires t < n <= 64
    ensures Schedule(b, n)[t] == NextWord(b, Schedule(b, t))
    decreases n
  {
    hide NextWord;
    if t + 1 < n {
      EarlierWord(b, n - 1, t);
    }
  }

  lemma SameWord(b: Block, n: nat, t: nat)
    requires t < n <= 64
    ensures Schedule(b, n)[t] == Schedule(b, 64)[t]
  {
    hide NextWord;
    EarlierWord(b, n, t);
    EarlierWord(b, 64, t);
  }

  lemma FirstWords(b: Block)
    ensures forall t :: 0 <= t < 16 ==> Schedule(b, 64)[t] == WordAt(b, t)
  {
    hide WordAt, Schedule;
    forall t | 0 <= t < 16 ensures Schedule(b, 64)[t] == WordAt(b, t) {
      EarlierWord(b, 64, t);
    }
  }

  lemma LaterWord(b: Block, w: seq<bv32>, t: nat)
    requires 16 <= t < 64 && w == Schedule(b, 64)
    ensures Mixes(w[t - 16], w[t - 15], w[t - 7], w[t - 2], w[t])
  {
    hide SmallSigma0, SmallSigma1, Sum, Schedule;
    EarlierWord(b, 64, t);
    SameWord(b, t, t - 16);
    SameWord(b, t, t - 15);
    SameWord(b, t, t - 7);
    SameWord(b, t, t - 2);
  }

  lemma Determined(w16: bv32, w15: bv32, w7: bv32, w2: bv32, w: bv32, u: bv32)
    requires Mixes(w16, w15, w7, w2, w) && Mixes(w16, w15, w7, w2, u)
    ensures w == u
  {
    hide SmallSigma0, SmallSigma1, Sum;
  }

  /** The next eight words of a schedule, given the sixteen before them. */
  lemma NextEight(b: Block, w: seq<bv32>, t: nat,
                  u0: bv32, u1: bv32, u2: bv32, u3: bv32, u4: bv32, u5: bv32, u6: bv32, u7: bv32)
    requires 16 <= t <= 56 && w == Schedule(b, 64)
    requires Mixes(w[t - 16], w[t - 15], w[t - 7], w[t - 2], u0)
    requires Mixes(w[t - 15], w[t - 14], w[t - 6], w[t - 1], u1)
    requires Mixes(w[t - 14], w[t - 13], w[t - 5], u0, u2)
    requires Mixes(w[t - 13], w[t - 12], w[t - 4], u1, u3)
    requires Mixes(w[t - 12], w[t - 11], w[t - 3], u2, u4)
    requires Mixes(w[t - 11], w[t - 10], w[t - 2], u3, u5)
    requires Mixes(w[t - 10], w[t - 9], w[t - 1], u4, u6)
    requires Mixes(w[t - 9], w[t - 8], u0, u5, u7)
    ensures Eight(w, t, u0, u1, u2, u3, u4, u5, u6, u7)
  {
    hide Mixes, Schedule;
    OneMore(b, w, t, u0);
    OneMore(b, w, t + 1, u1);
    OneMore(b, w, t + 2, u2);
    OneMore(b, w, t + 3, u3);
    OneMore(b, w, t + 4, u4);
    OneMore(b, w, t + 5, u5);
    OneMore(b, w, t + 6, u6);
    OneMore(b, w, t + 7, u7);
  }

  lemma OneMore(b: Block, w: seq<bv32>, t: nat, u: bv32)
    requires 16 <= t < 64 && w == Schedule(b, 64)
    requires Mixes(w[t - 16], w[t - 15], w[t - 7], w[t - 2], u)
    ensures w[t] == u
  {
    hide Mixes, Schedule;
    LaterWord(b, w, t);
    Determined(w[t - 16], w[t - 15], w[t - 7], w[t - 2], w[t], u);
  }

  /** Eight rounds, given the two words that each of them computes. */
  lemma EightRounds(v: Working, w: seq<bv32>, t: nat, s: Working,
                    a0: bv32, a1: bv32, a2: bv32, a3: bv32, a4: bv32, a5: bv32, a6: bv32, a7: bv32,
                    e0: bv32, e1: bv32, e2: bv32, e3: bv32, e4: bv32, e5: bv32, e6: bv32, e7: bv32)
    requires t <= 56 && |w| == 64 && Rounds(v, w, t) == s
    requires Turns(s.a, s.b, s.c, s.d, s.e, s.f, s.g, s.h, RoundConstant(t), w[t], a0, e0)
    requires Turns(a0, s.a, s.b, s.c, e0, s.e, s.f, s.g, RoundConstant(t + 1), w[t + 1], a1, e1)
    requires Turns(a1, a0, s.a, s.b, e1, e0, s.e, s.f, RoundConstant(t + 2), w[t + 2], a2, e2)
    requires Turns(a2, a1, a0, s.a, e2, e1, e0, s.e, RoundConstant(t + 3), w[t + 3], a3, e3)
    requires Turns(a3, a2, a1, a0, e3, e2, e1, e0, RoundConstant(t + 4), w[t + 4], a4, e4)
    requires Turns(a4, a3, a2, a1, e4, e3, e2, e1, RoundConstant(t + 5), w[t + 5], a5, e5)
    requires Turns(a5, a4, a3, a2, e5, e4, e3, e2, RoundConstant(t + 6), w[t + 6], a6, e6)
    requires Turns(a6, a5, a4, a3, e6, e5, e4, e3, RoundConstant(t + 7), w[t + 7], a7, e7)
    ensures Rounds(v, w, t + 8) == Working(a7, a6, a5, a4, e7, e6, e5, e4)
  {
    hide RoundConstant, Rounds, Round;
    forall u | t <= u < t + 8 ensures Rounds(v, w, u + 1) == Round(Rounds(v, w, u), RoundConstant(u), w[u]) {
      RoundsStep(v, w, u);
    }
    assert Rounds(v, w, t + 4) == Working(a3, a2, a1, a0, e3, e2, e1, e0);
  }

  lemma ConstantRow0()
    ensures RoundConstant(0) == 0x428a2f98 && RoundConstant(1) == 0x71374491
    ensures RoundConstant(2) == 0xb5c0fbcf && RoundConstant(3) == 0xe9b5dba5
    ensures RoundConstant(4) == 0x3956c25b && RoundConstant(5) == 0x59f111f1
    ensures RoundConstant(6) == 0x923f82a4 && RoundConstant(7) == 0xab1c5ed5
  {
  }

  lemma ConstantRow1()
    ensures RoundConstant(8) == 0xd807aa98 && RoundConstant(9) == 0x12835b01
    ensures RoundConstant(10) == 0x243185be && RoundConstant(11) == 0x550c7dc3
    ensures RoundConstant(12) == 0x72be5d74 && RoundConstant(13) == 0x80deb1fe
    ensures RoundConstant(14) == 0x9bdc06a7 && RoundConstant(15) == 0xc19bf174
  {
  }

  lemma ConstantRow2()
    ensures RoundConstant(16) == 0xe49b69c1 && RoundConstant(17) == 0xefbe4786
    ensures RoundConstant(18) == 0xfc19dc6 && RoundConstant(19) == 0x240ca1cc
    ensures RoundConstant(20) == 0x2de92c6f && RoundConstant(21) == 0x4a7484aa
    ensures RoundConstant(22) == 0x5cb0a9dc && RoundConstant(23) == 0x76f988da
  {
  }

  lemma ConstantRow3()
    ensures RoundConstant(24) == 0x983e5152 && RoundConstant(25) == 0xa831c66d
    ensures RoundConstant(26) == 0xb00327c8 && RoundConstant(27) == 0xbf597fc7
    ensures RoundConstant(28) == 0xc6e00bf3 && RoundConstant(29) == 0xd5a79147
    ensures RoundConstant(30) == 0x6ca6351 && RoundConstant(31) == 0x14292967
  {
  }

  lemma ConstantRow4()
    ensures RoundConstant(32) == 0x27b70a85 && RoundConstant(33) == 0x2e1b2138
    ensures RoundConstant(34) == 0x4d2c6dfc && RoundConstant(35) == 0x53380d13
    ensures RoundConstant(36) == 0x650a7354 && RoundConstant(37) == 0x766a0abb
    ensures RoundConstant(38) == 0x81c2c92e && RoundConstant(39) == 0x92722c85
  {
  }

  lemma ConstantRow5()
    ensures RoundConstant(40) == 0xa2bfe8a1 && RoundConstant(41) == 0xa81a664b
    ensures RoundConstant(42) == 0xc24b8b70 && RoundConstant(43) == 0xc76c51a3
    ensures RoundConstant(44) == 0xd192e819 && RoundConstant(45) == 0xd6990624
    ensures RoundConstant(46) == 0xf40e3585 && RoundConstant(47) == 0x106aa070
  {
  }

  lemma ConstantRow6()
    ensures RoundConstant(48) == 0x19a4c116 && RoundConstant(49) == 0x1e376c08
    ensures RoundConstant(50) == 0x2748774c && RoundConstant(51) == 0x34b0bcb5
    ensures RoundConstant(52) == 0x391c0cb3 && RoundConstant(53) == 0x4ed8aa4a
    ensures RoundConstant(54) == 0x5b9cca4f && RoundConstant(55) == 0x682e6ff3
  {
  }

  lemma ConstantRow7()
    ensures RoundConstant(56) == 0x748f82ee && RoundConstant(57) == 0x78a5636f
    ensures RoundConstant(58) == 0x84c87814 && RoundConstant(59) == 0x8cc70208
    ensures RoundConstant(60) == 0x90befffa && RoundConstant(61) == 0xa4506ceb
    ensures RoundConstant(62) == 0xbef9a3f7 && RoundConstant(63) == 0xc67178f2
  {
  }

  lemma AddsTo(h: HashValue, v: Working, r: HashValue)
    requires r == AddBack(h, v)
    ensures r == [Sum(h[0], v.a), Sum(h[1], v.b), Sum(h[2], v.c), Sum(h[3], v.d),
                  Sum(h[4], v.e), Sum(h[5], v.f), Sum(h[6], v.g), Sum(h[7], v.h)]
  {
    hide Sum;
  }

  // -------------------------------------------------------------------------
  // The one-block message
  // -------------------------------------------------------------------------

  lemma AbcWords16(b: Block, w: seq<bv32>)
    requires w == Schedule(b, 64)
    requires Eight(w, 0, 0x61626380, 0, 0, 0, 0, 0, 0, 0)
    requires Eight(w, 8, 0, 0, 0, 0, 0, 0, 0, 0x18)
    ensures Eight(w, 16, 0x61626380, 0xf0000, 0x7da86405, 0x600003c6, 0x3e9d7b78, 0x183fc00, 0x12dcbfdb, 0xe2e2c38e)
  {
    assert Mixes(0x61626380, 0, 0, 0, 0x61626380);
    assert Mixes(0, 0, 0, 0x18, 0xf0000);
    assert Mixes(0, 0, 0, 0x61626380, 0x7da86405);
    assert Mixes(0, 0, 0, 0xf0000, 0x600003c6);
    assert Mixes(0, 0, 0, 0x7da86405, 0x3e9d7b78);
    assert Mixes(0, 0, 0, 0x600003c6, 0x183fc00);
    assert Mixes(0, 0, 0x18, 0x3e9d7b78, 0x12dcbfdb);
    assert Mixes(0, 0, 0x61626380, 0x183fc00, 0xe2e2c38e);
    hide Mixes, Schedule;
    NextEight(b, w, 16, 0x61626380, 0xf0000, 0x7da86405, 0x600003c6, 0x3e9d7b78, 0x183fc00, 0x12dcbfdb,
              0xe2e2c38e);
  }

  lemma AbcWords24(b: Block, w: seq<bv32>)
    requires w == Schedule(b, 64)
    requires Eight(w, 8, 0, 0, 0, 0, 0, 0, 0, 0x18)
    requires Eight(w, 16, 0x61626380, 0xf0000, 0x7da86405, 0x600003c6, 0x3e9d7b78, 0x183fc00, 0x12dcbfdb, 0xe2e2c38e)
    ensures Eight(w, 24, 0xc8215c1a, 0xb73679a2, 0xe5bc3909, 0x32663c5b, 0x9d209d67, 0xec8726cb, 0x702138a4,
                  0xd3b7973b)
  {
    assert Mixes(0, 0, 0xf0000, 0x12dcbfdb, 0xc8215c1a);
    assert Mixes(0, 0, 0x7da86405, 0xe2e2c38e, 0xb73679a2);
    assert Mixes(0, 0, 0x600003c6, 0xc8215c1a, 0xe5bc3909);
    assert Mixes(0, 0, 0x3e9d7b78, 0xb73679a2, 0x32663c5b);
    assert Mixes(0, 0, 0x183fc00, 0xe5bc3909, 0x9d209d67);
    assert Mixes(0, 0, 0x12dcbfdb, 0x32663c5b, 0xec8726cb);
    assert Mixes(0, 0x18, 0xe2e2c38e, 0x9d209d67, 0x702138a4);
    assert Mixes(0x18, 0x61626380, 0xc8215c1a, 0xec8726cb, 0xd3b7973b);
    hide Mixes, Schedule;
    NextEight(b, w, 24, 0xc8215c1a, 0xb73679a2, 0xe5bc3909, 0x32663c5b, 0x9d209d67, 0xec8726cb, 0x702138a4,
              0xd3b7973b);
  }

  lemma AbcWords32(b: Block, w: seq<bv32>)
    requires w == Schedule(b, 64)
    requires Eight(w, 16, 0x61626380, 0xf0000, 0x7da86405, 0x600003c6, 0x3e9d7b78, 0x183fc00, 0x12dcbfdb, 0xe2e2c38e)
    requires Eight(w, 24, 0xc8215c1a, 0xb73679a2, 0xe5bc3909, 0x32663c5b, 0x9d209d67, 0xec8726cb, 0x702138a4,
                   0xd3b7973b)
    ensures Eight(w, 32, 0x93f5997f, 0x3b68ba73, 0xaff4ffc1, 0xf10a5c62, 0xa8b3996, 0x72af830a, 0x9409e33e,
                  0x24641522)
  {
    assert Mixes(0x61626380, 0xf0000, 0xb73679a2, 0x702138a4, 0x93f5997f);
    assert Mixes(0xf0000, 0x7da86405, 0xe5bc3909, 0xd3b7973b, 0x3b68ba73);
    assert Mixes(0x7da86405, 0x600003c6, 0x32663c5b, 0x93f5997f, 0xaff4ffc1);
    assert Mixes(0x600003c6, 0x3e9d7b78, 0x9d209d67, 0x3b68ba73, 0xf10a5c62);
    assert Mixes(0x3e9d7b78, 0x183fc00, 0xec8726cb, 0xaff4ffc1, 0xa8b3996);
    assert Mixes(0x183fc00, 0x12dcbfdb, 0x702138a4, 0xf10a5c62, 0x72af830a);
    assert Mixes(0x12dcbfdb, 0xe2e2c38e, 0xd3b7973b, 0xa8b3996, 0x9409e33e);
    assert Mixes(0xe2e2c38e, 0xc8215c1a, 0x93f5997f, 0x72af830a, 0x24641522);
    hide Mixes, Schedule;
    NextEight(b, w, 32, 0x93f5997f, 0x3b68ba73, 0xaff4ffc1, 0xf10a5c62, 0xa8b3996, 0x72af830a, 0x9409e33e,
              0x24641522);
  }

  lemma AbcWords40(b: Block, w: seq<bv32>)
    requires w == Schedule(b, 64)
    requires Eight(w, 24, 0xc8215c1a, 0xb73679a2, 0xe5bc3909, 0x32663c5b, 0x9d209d67, 0xec8726cb, 0x702138a4,
                   0xd3b7973b)
    requires Eight(w, 32, 0x93f5997f, 0x3b68ba73, 0xaff4ffc1, 0xf10a5c62, 0xa8b3996, 0x72af830a, 0x9409e33e,
                   0x24641522)
    ensures Eight(w, 40, 0x9f47bf94, 0xf0a64f5a, 0x3e246a79, 0x27333ba3, 0xc4763f2, 0x840abf27, 0x7a290d5d, 0x65c43da)
  {
    assert Mixes(0xc8215c1a, 0xb73679a2, 0x3b68ba73, 0x9409e33e, 0x9f47bf94);
    assert Mixes(0xb73679a2, 0xe5bc3909, 0xaff4ffc1, 0x24641522, 0xf0a64f5a);
    assert Mixes(0xe5bc3909, 0x32663c5b, 0xf10a5c62, 0x9f47bf94, 0x3e246a79);
    assert Mixes(0x32663c5b, 0x9d209d67, 0xa8b3996, 0xf0a64f5a, 0x27333ba3);
    assert Mixes(0x9d209d67, 0xec8726cb, 0x72af830a, 0x3e246a79, 0xc4763f2);
    assert Mixes(0xec8726cb, 0x702138a4, 0x9409e33e, 0x27333ba3, 0x840abf27);
    assert Mixes(0x702138a4, 0xd3b7973b, 0x24641522, 0xc4763f2, 0x7a290d5d);
    assert Mixes(0xd3b7973b, 0x93f5997f, 0x9f47bf94, 0x840abf27, 0x65c43da);
    hide Mixes, Schedule;
    NextEight(b, w, 40, 0x9f47bf94, 0xf0a64f5a, 0x3e246a79, 0x27333ba3, 0xc4763f2, 0x840abf27, 0x7a290d5d,
              0x65c43da);
  }

  lemma AbcWords48(b: Block, w: seq<bv32>)
    requires w == Schedule(b, 64)
    requires Eight(w, 32, 0x93f5997f, 0x3b68ba73, 0xaff4ffc1, 0xf10a5c62, 0xa8b3996, 0x72af830a, 0x9409e33e,
                   0x24641522)
    requires Eight(w, 40, 0x9f47bf94, 0xf0a64f5a, 0x3e246a79, 0x27333ba3, 0xc4763f2, 0x840abf27, 0x7a290d5d,
                   0x65c43da)
    ensures Eight(w, 48, 0xfb3e89cb, 0xcc7617db, 0xb9e66c34, 0xa9993667, 0x84badedd, 0xc21462bc, 0x1487472c,
                  0xb20f7a99)
  {
    assert Mixes(0x93f5997f, 0x3b68ba73, 0xf0a64f5a, 0x7a290d5d, 0xfb3e89cb);
    assert Mixes(0x3b68ba73, 0xaff4ffc1, 0x3e246a79, 0x65c43da, 0xcc7617db);
    assert Mixes(0xaff4ffc1, 0xf10a5c62, 0x27333ba3, 0xfb3e89cb, 0xb9e66c34);
    assert Mixes(0xf10a5c62, 0xa8b3996, 0xc4763f2, 0xcc7617db, 0xa9993667);
    assert Mixes(0xa8b3996, 0x72af830a, 0x840abf27, 0xb9e66c34, 0x84badedd);
    assert Mixes(0x72af830a, 0x9409e33e, 0x7a290d5d, 0xa9993667, 0xc21462bc);
    assert Mixes(0x9409e33e, 0x24641522, 0x65c43da, 0x84badedd, 0x1487472c);
    assert Mixes(0x24641522, 0x9f47bf94, 0xfb3e89cb, 0xc21462bc, 0xb20f7a99);
    hide Mixes, Schedule;
    NextEight(b, w, 48, 0xfb3e89cb, 0xcc7617db, 0xb9e66c34, 0xa9993667, 0x84badedd, 0xc21462bc, 0x1487472c,
              0xb20f7a99);
  }

  lemma AbcWords56(b: Block, w: seq<bv32>)
    requires w == Schedule(b, 64)
    requires Eight(w, 40, 0x9f47bf94, 0xf0a64f5a, 0x3e246a79, 0x27333ba3, 0xc4763f2, 0x840abf27, 0x7a290d5d,
                   0x65c43da)
    requires Eight(w, 48, 0xfb3e89cb, 0xcc7617db, 0xb9e66c34, 0xa9993667, 0x84badedd, 0xc21462bc, 0x1487472c,
                   0xb20f7a99)
    ensures Eight(w, 56, 0xef57b9cd, 0xebe6b238, 0x9fe3095e, 0x78bc8d4b, 0xa43fcf15, 0x668b2ff8, 0xeeaba2cc,
                  0x12b1edeb)
  {
    assert Mixes(0x9f47bf94, 0xf0a64f5a, 0xcc7617db, 0x1487472c, 0xef57b9cd);
    assert Mixes(0xf0a64f5a, 0x3e246a79, 0xb9e66c34, 0xb20f7a99, 0xebe6b238);
    assert Mixes(0x3e246a79, 0x27333ba3, 0xa9993667, 0xef57b9cd, 0x9fe3095e);
    assert Mixes(0x27333ba3, 0xc4763f2, 0x84badedd, 0xebe6b238, 0x78bc8d4b);
    assert Mixes(0xc4763f2, 0x840abf27, 0xc21462bc, 0x9fe3095e, 0xa43fcf15);
    assert Mixes(0x840abf27, 0x7a290d5d, 0x1487472c, 0x78bc8d4b, 0x668b2ff8);
    assert Mixes(0x7a290d5d, 0x65c43da, 0xb20f7a99, 0xa43fcf15, 0xeeaba2cc);
    assert Mixes(0x65c43da, 0xfb3e89cb, 0xef57b9cd, 0x668b2ff8, 0x12b1edeb);
    hide Mixes, Schedule;
    NextEight(b, w, 56, 0xef57b9cd, 0xebe6b238, 0x9fe3095e, 0x78bc8d4b, 0xa43fcf15, 0x668b2ff8, 0xeeaba2cc,
              0x12b1edeb);
  }

  lemma AbcRounds0(v: Working, w: seq<bv32>)
    requires Eight(w, 0, 0x61626380, 0, 0, 0, 0, 0, 0, 0)
    requires Rounds(v, w, 0)
          == Working(0x6a09e667, 0xbb67ae85, 0x3c6ef372, 0xa54ff53a, 0x510e527f, 0x9b05688c, 0x1f83d9ab, 0x5be0cd19)
    ensures Rounds(v, w, 8)
         == Working(0x85a07b5f, 0xe5030380, 0x2b4209f5, 0x4409a6a, 0xc657a79, 0x9b27a401, 0x714260ad, 0x43ada245)
  {
    assert Turns(0x6a09e667, 0xbb67ae85, 0x3c6ef372, 0xa54ff53a, 0x510e527f, 0x9b05688c, 0x1f83d9ab, 0x5be0cd19,
                 0x428a2f98, 0x61626380, 0x5d6aebcd, 0xfa2a4622);
    assert Turns(0x5d6aebcd, 0x6a09e667, 0xbb67ae85, 0x3c6ef372, 0xfa2a4622, 0x510e527f, 0x9b05688c, 0x1f83d9ab,
                 0x71374491, 0, 0x5a6ad9ad, 0x78ce7989);
    assert Turns(0x5a6ad9ad, 0x5d6aebcd, 0x6a09e667, 0xbb67ae85, 0x78ce7989, 0xfa2a4622, 0x510e527f, 0x9b05688c,
                 0xb5c0fbcf, 0, 0xc8c347a7, 0xf92939eb);
    assert Turns(0xc8c347a7, 0x5a6ad9ad, 0x5d6aebcd, 0x6a09e667, 0xf92939eb, 0x78ce7989, 0xfa2a4622, 0x510e527f,
                 0xe9b5dba5, 0, 0xd550f666, 0x24e00850);
    assert Turns(0xd550f666, 0xc8c347a7, 0x5a6ad9ad, 0x5d6aebcd, 0x24e00850, 0xf92939eb, 0x78ce7989, 0xfa2a4622,
                 0x3956c25b, 0, 0x4409a6a, 0x43ada245);
    assert Turns(0x4409a6a, 0xd550f666, 0xc8c347a7, 0x5a6ad9ad, 0x43ada245, 0x24e00850, 0xf92939eb, 0x78ce7989,
                 0x59f111f1, 0, 0x2b4209f5, 0x714260ad);
    assert Turns(0x2b4209f5, 0x4409a6a, 0xd550f666, 0xc8c347a7, 0x714260ad, 0x43ada245, 0x24e00850, 0xf92939eb,
                 0x923f82a4, 0, 0xe5030380, 0x9b27a401);
    assert Turns(0xe5030380, 0x2b4209f5, 0x4409a6a, 0xd550f666, 0x9b27a401, 0x714260ad, 0x43ada245, 0x24e00850,
                 0xab1c5ed5, 0, 0x85a07b5f, 0xc657a79);
    ConstantRow0();
    hide Turns, Rounds, RoundConstant;
    EightRounds(v, w, 0, Rounds(v, w, 0), 0x5d6aebcd, 0x5a6ad9ad, 0xc8c347a7, 0xd550f666, 0x4409a6a, 0x2b4209f5,
                0xe5030380, 0x85a07b5f, 0xfa2a4622, 0x78ce7989, 0xf92939eb, 0x24e00850, 0x43ada245, 0x714260ad,
                0x9b27a401, 0xc657a79);
  }

  lemma AbcRounds8(v: Working, w: seq<bv32>)
    requires Eight(w, 8, 0, 0, 0, 0, 0, 0, 0, 0x18)
    requires Rounds(v, w, 8)
          == Working(0x85a07b5f, 0xe5030380, 0x2b4209f5, 0x4409a6a, 0xc657a79, 0x9b27a401, 0x714260ad, 0x43ada245)
    ensures Rounds(v, w, 16)
         == Working(0xb0fa238e, 0xc0645fde, 0xd932eb16, 0x87912990, 0x7590dcd, 0xb92f20c, 0x745a48de, 0x1e578218)
  {
    assert Turns(0x85a07b5f, 0xe5030380, 0x2b4209f5, 0x4409a6a, 0xc657a79, 0x9b27a401, 0x714260ad, 0x43ada245,
                 0xd807aa98, 0, 0x8e04ecb9, 0x32ca2d8c);
    assert Turns(0x8e04ecb9, 0x85a07b5f, 0xe5030380, 0x2b4209f5, 0x32ca2d8c, 0xc657a79, 0x9b27a401, 0x714260ad,
                 0x12835b01, 0, 0x8c87346b, 0x1cc92596);
    assert Turns(0x8c87346b, 0x8e04ecb9, 0x85a07b5f, 0xe5030380, 0x1cc92596, 0x32ca2d8c, 0xc657a79, 0x9b27a401,
                 0x243185be, 0, 0x4798a3f4, 0x436b23e8);
    assert Turns(0x4798a3f4, 0x8c87346b, 0x8e04ecb9, 0x85a07b5f, 0x436b23e8, 0x1cc92596, 0x32ca2d8c, 0xc657a79,
                 0x550c7dc3, 0, 0xf71fc5a9, 0x816fd6e9);
    assert Turns(0xf71fc5a9, 0x4798a3f4, 0x8c87346b, 0x8e04ecb9, 0x816fd6e9, 0x436b23e8, 0x1cc92596, 0x32ca2d8c,
                 0x72be5d74, 0, 0x87912990, 0x1e578218);
    assert Turns(0x87912990, 0xf71fc5a9, 0x4798a3f4, 0x8c87346b, 0x1e578218, 0x816fd6e9, 0x436b23e8, 0x1cc92596,
                 0x80deb1fe, 0, 0xd932eb16, 0x745a48de);
    assert Turns(0xd932eb16, 0x87912990, 0xf71fc5a9, 0x4798a3f4, 0x745a48de, 0x1e578218, 0x816fd6e9, 0x436b23e8,
                 0x9bdc06a7, 0, 0xc0645fde, 0xb92f20c);
    assert Turns(0xc0645fde, 0xd932eb16, 0x87912990, 0xf71fc5a9, 0xb92f20c, 0x745a48de, 0x1e578218, 0x816fd6e9,
                 0xc19bf174, 0x18, 0xb0fa238e, 0x7590dcd);
    ConstantRow1();
    hide Turns, Rounds, RoundConstant;
    EightRounds(v, w, 8, Rounds(v, w, 8), 0x8e04ecb9, 0x8c87346b, 0x4798a3f4, 0xf71fc5a9, 0x87912990, 0xd932eb16,
                0xc0645fde, 0xb0fa238e, 0x32ca2d8c, 0x1cc92596, 0x436b23e8, 0x816fd6e9, 0x1e578218, 0x745a48de,
                0xb92f20c, 0x7590dcd);
  }

  lemma AbcRounds16(v: Working, w: seq<bv32>)
    requires Eight(w, 16, 0x61626380, 0xf0000, 0x7da86405, 0x600003c6, 0x3e9d7b78, 0x183fc00, 0x12dcbfdb, 0xe2e2c38e)
    requires Rounds(v, w, 16)
          == Working(0xb0fa238e, 0xc0645fde, 0xd932eb16, 0x87912990, 0x7590dcd, 0xb92f20c, 0x745a48de, 0x1e578218)
    ensures Rounds(v, w, 24)
         == Working(0xc5d53d8d, 0xa7a3623f, 0xc2606d6d, 0x9dc68b63, 0xaa47c347, 0x49f5114a, 0xe1257970, 0x8ada8930)
  {
    assert Turns(0xb0fa238e, 0xc0645fde, 0xd932eb16, 0x87912990, 0x7590dcd, 0xb92f20c, 0x745a48de, 0x1e578218,
                 0xe49b69c1, 0x61626380, 0x21da9a9b, 0x8034229c);
    assert Turns(0x21da9a9b, 0xb0fa238e, 0xc0645fde, 0xd932eb16, 0x8034229c, 0x7590dcd, 0xb92f20c, 0x745a48de,
                 0xefbe4786, 0xf0000, 0xc2fbd9d1, 0x846ee454);
    assert Turns(0xc2fbd9d1, 0x21da9a9b, 0xb0fa238e, 0xc0645fde, 0x846ee454, 0x8034229c, 0x7590dcd, 0xb92f20c,
                 0xfc19dc6, 0x7da86405, 0xfe777bbf, 0xcc899961);
    assert Turns(0xfe777bbf, 0xc2fbd9d1, 0x21da9a9b, 0xb0fa238e, 0xcc899961, 0x846ee454, 0x8034229c, 0x7590dcd,
                 0x240ca1cc, 0x600003c6, 0xe1f20c33, 0xb0638179);
    assert Turns(0xe1f20c33, 0xfe777bbf, 0xc2fbd9d1, 0x21da9a9b, 0xb0638179, 0xcc899961, 0x846ee454, 0x8034229c,
                 0x2de92c6f, 0x3e9d7b78, 0x9dc68b63, 0x8ada8930);
    assert Turns(0x9dc68b63, 0xe1f20c33, 0xfe777bbf, 0xc2fbd9d1, 0x8ada8930, 0xb0638179, 0xcc899961, 0x846ee454,
                 0x4a7484aa, 0x183fc00, 0xc2606d6d, 0xe1257970);
    assert Turns(0xc2606d6d, 0x9dc68b63, 0xe1f20c33, 0xfe777bbf, 0xe1257970, 0x8ada8930, 0xb0638179, 0xcc899961,
                 0x5cb0a9dc, 0x12dcbfdb, 0xa7a3623f, 0x49f5114a);
    assert Turns(0xa7a3623f, 0xc2606d6d, 0x9dc68b63, 0xe1f20c33, 0x49f5114a, 0xe1257970, 0x8ada8930, 0xb0638179,
                 0x76f988da, 0xe2e2c38e, 0xc5d53d8d, 0xaa47c347);
    ConstantRow2();
    hide Turns, Rounds, RoundConstant;
    EightRounds(v, w, 16, Rounds(v, w, 16), 0x21da9a9b, 0xc2fbd9d1, 0xfe777bbf, 0xe1f20c33, 0x9dc68b63, 0xc2606d6d,
                0xa7a3623f, 0xc5d53d8d, 0x8034229c, 0x846ee454, 0xcc899961, 0xb0638179, 0x8ada8930, 0xe1257970,
                0x49f5114a, 0xaa47c347);
  }

  lemma AbcRounds24(v: Working, w: seq<bv32>)
    requires Eight(w, 24, 0xc8215c1a, 0xb73679a2, 0xe5bc3909, 0x32663c5b, 0x9d209d67, 0xec8726cb, 0x702138a4,
                   0xd3b7973b)
    requires Rounds(v, w, 24)
          == Working(0xc5d53d8d, 0xa7a3623f, 0xc2606d6d, 0x9dc68b63, 0xaa47c347, 0x49f5114a, 0xe1257970, 0x8ada8930)
    ensures Rounds(v, w, 32)
         == Working(0x73b33bf5, 0xea992a22, 0xa0060b30, 0x363482c9, 0xba591112, 0x109ab3a, 0xade79437, 0x6112a3b7)
  {
    assert Turns(0xc5d53d8d, 0xa7a3623f, 0xc2606d6d, 0x9dc68b63, 0xaa47c347, 0x49f5114a, 0xe1257970, 0x8ada8930,
                 0x983e5152, 0xc8215c1a, 0x1c2c2838, 0x2823ef91);
    assert Turns(0x1c2c2838, 0xc5d53d8d, 0xa7a3623f, 0xc2606d6d, 0x2823ef91, 0xaa47c347, 0x49f5114a, 0xe1257970,
                 0xa831c66d, 0xb73679a2, 0xcde8037d, 0x14383d8e);
    assert Turns(0xcde8037d, 0x1c2c2838, 0xc5d53d8d, 0xa7a3623f, 0x14383d8e, 0x2823ef91, 0xaa47c347, 0x49f5114a,
                 0xb00327c8, 0xe5bc3909, 0xb62ec4bc, 0xc74c6516);
    assert Turns(0xb62ec4bc, 0xcde8037d, 0x1c2c2838, 0xc5d53d8d, 0xc74c6516, 0x14383d8e, 0x2823ef91, 0xaa47c347,
                 0xbf597fc7, 0x32663c5b, 0x77d37528, 0xedffbff8);
    assert Turns(0x77d37528, 0xb62ec4bc, 0xcde8037d, 0x1c2c2838, 0xedffbff8, 0xc74c6516, 0x14383d8e, 0x2823ef91,
                 0xc6e00bf3, 0x9d209d67, 0x363482c9, 0x6112a3b7);
    assert Turns(0x363482c9, 0x77d37528, 0xb62ec4bc, 0xcde8037d, 0x6112a3b7, 0xedffbff8, 0xc74c6516, 0x14383d8e,
                 0xd5a79147, 0xec8726cb, 0xa0060b30, 0xade79437);
    assert Turns(0xa0060b30, 0x363482c9, 0x77d37528, 0xb62ec4bc, 0xade79437, 0x6112a3b7, 0xedffbff8, 0xc74c6516,
                 0x6ca6351, 0x702138a4, 0xea992a22, 0x109ab3a);
    assert Turns(0xea992a22, 0xa0060b30, 0x363482c9, 0x77d37528, 0x109ab3a, 0xade79437, 0x6112a3b7, 0xedffbff8,
                 0x14292967, 0xd3b7973b, 0x73b33bf5, 0xba591112);
    ConstantRow3();
    hide Turns, Rounds, RoundConstant;
    EightRounds(v, w, 24, Rounds(v, w, 24), 0x1c2c2838, 0xcde8037d, 0xb62ec4bc, 0x77d37528, 0x363482c9, 0xa0060b30,
                0xea992a22, 0x73b33bf5, 0x2823ef91, 0x14383d8e, 0xc74c6516, 0xedffbff8, 0x6112a3b7, 0xade79437,
                0x109ab3a, 0xba591112);
  }

  lemma AbcRounds32(v: Working, w: seq<bv32>)
    requires Eight(w, 32, 0x93f5997f, 0x3b68ba73, 0xaff4ffc1, 0xf10a5c62, 0xa8b3996, 0x72af830a, 0x9409e33e,
                   0x24641522)
    requires Rounds(v, w, 32)
          == Working(0x73b33bf5, 0xea992a22, 0xa0060b30, 0x363482c9, 0xba591112, 0x109ab3a, 0xade79437, 0x6112a3b7)
    ensures Rounds(v, w, 40)
         == Working(0x79ea687a, 0x6dc57a8a, 0x34df1604, 0x41a65cb1, 0x1efbc0a0, 0xf0781bc8, 0xa507a53d, 0x772a26b)
  {
    assert Turns(0x73b33bf5, 0xea992a22, 0xa0060b30, 0x363482c9, 0xba591112, 0x109ab3a, 0xade79437, 0x6112a3b7,
                 0x27b70a85, 0x93f5997f, 0x98e12507, 0x9cd9f5f6);
    assert Turns(0x98e12507, 0x73b33bf5, 0xea992a22, 0xa0060b30, 0x9cd9f5f6, 0xba591112, 0x109ab3a, 0xade79437,
                 0x2e1b2138, 0x3b68ba73, 0xfe604df5, 0x59249dd3);
    assert Turns(0xfe604df5, 0x98e12507, 0x73b33bf5, 0xea992a22, 0x59249dd3, 0x9cd9f5f6, 0xba591112, 0x109ab3a,
                 0x4d2c6dfc, 0xaff4ffc1, 0xa9a7738c, 0x85f3833);
    assert Turns(0xa9a7738c, 0xfe604df5, 0x98e12507, 0x73b33bf5, 0x85f3833, 0x59249dd3, 0x9cd9f5f6, 0xba591112,
                 0x53380d13, 0xf10a5c62, 0x65a0cfe4, 0xf4b002d6);
    assert Turns(0x65a0cfe4, 0xa9a7738c, 0xfe604df5, 0x98e12507, 0xf4b002d6, 0x85f3833, 0x59249dd3, 0x9cd9f5f6,
                 0x650a7354, 0xa8b3996, 0x41a65cb1, 0x772a26b);
    assert Turns(0x41a65cb1, 0x65a0cfe4, 0xa9a7738c, 0xfe604df5, 0x772a26b, 0xf4b002d6, 0x85f3833, 0x59249dd3,
                 0x766a0abb, 0x72af830a, 0x34df1604, 0xa507a53d);
    assert Turns(0x34df1604, 0x41a65cb1, 0x65a0cfe4, 0xa9a7738c, 0xa507a53d, 0x772a26b, 0xf4b002d6, 0x85f3833,
                 0x81c2c92e, 0x9409e33e, 0x6dc57a8a, 0xf0781bc8);
    assert Turns(0x6dc57a8a, 0x34df1604, 0x41a65cb1, 0x65a0cfe4, 0xf0781bc8, 0xa507a53d, 0x772a26b, 0xf4b002d6,
                 0x92722c85, 0x24641522, 0x79ea687a, 0x1efbc0a0);
    ConstantRow4();
    hide Turns, Rounds, RoundConstant;
    EightRounds(v, w, 32, Rounds(v, w, 32), 0x98e12507, 0xfe604df5, 0xa9a7738c, 0x65a0cfe4, 0x41a65cb1, 0x34df1604,
                0x6dc57a8a, 0x79ea687a, 0x9cd9f5f6, 0x59249dd3, 0x85f3833, 0xf4b002d6, 0x772a26b, 0xa507a53d,
                0xf0781bc8, 0x1efbc0a0);
  }

  lemma AbcRounds40(v: Working, w: seq<bv32>)
    requires Eight(w, 40, 0x9f47bf94, 0xf0a64f5a, 0x3e246a79, 0x27333ba3, 0xc4763f2, 0x840abf27, 0x7a290d5d,
                   0x65c43da)
    requires Rounds(v, w, 40)
          == Working(0x79ea687a, 0x6dc57a8a, 0x34df1604, 0x41a65cb1, 0x1efbc0a0, 0xf0781bc8, 0xa507a53d, 0x772a26b)
    ensures Rounds(v, w, 48)
         == Working(0x4172328d, 0xa14c14b0, 0x72ab4b91, 0x26628815, 0xfecf0bc6, 0xd57b94a9, 0xb7755da1, 0xa80f11f0)
  {
    assert Turns(0x79ea687a, 0x6dc57a8a, 0x34df1604, 0x41a65cb1, 0x1efbc0a0, 0xf0781bc8, 0xa507a53d, 0x772a26b,
                 0xa2bfe8a1, 0x9f47bf94, 0xd6670766, 0x26352d63);
    assert Turns(0xd6670766, 0x79ea687a, 0x6dc57a8a, 0x34df1604, 0x26352d63, 0x1efbc0a0, 0xf0781bc8, 0xa507a53d,
                 0xa81a664b, 0xf0a64f5a, 0xdf46652f, 0x838b2711);
    assert Turns(0xdf46652f, 0xd6670766, 0x79ea687a, 0x6dc57a8a, 0x838b2711, 0x26352d63, 0x1efbc0a0, 0xf0781bc8,
                 0xc24b8b70, 0x3e246a79, 0x17aa0dfe, 0xdecd4715);
    assert Turns(0x17aa0dfe, 0xdf46652f, 0xd6670766, 0x79ea687a, 0xdecd4715, 0x838b2711, 0x26352d63, 0x1efbc0a0,
                 0xc76c51a3, 0x27333ba3, 0x9d4baf93, 0xfda24c2e);
    assert Turns(0x9d4baf93, 0x17aa0dfe, 0xdf46652f, 0xd6670766, 0xfda24c2e, 0xdecd4715, 0x838b2711, 0x26352d63,
                 0xd192e819, 0xc4763f2, 0x26628815, 0xa80f11f0);
    assert Turns(0x26628815, 0x9d4baf93, 0x17aa0dfe, 0xdf46652f, 0xa80f11f0, 0xfda24c2e, 0xdecd4715, 0x838b2711,
                 0xd6990624, 0x840abf27, 0x72ab4b91, 0xb7755da1);
    assert Turns(0x72ab4b91, 0x26628815, 0x9d4baf93, 0x17aa0dfe, 0xb7755da1, 0xa80f11f0, 0xfda24c2e, 0xdecd4715,
                 0xf40e3585, 0x7a290d5d, 0xa14c14b0, 0xd57b94a9);
    assert Turns(0xa14c14b0, 0x72ab4b91, 0x26628815, 0x9d4baf93, 0xd57b94a9, 0xb7755da1, 0xa80f11f0, 0xfda24c2e,
                 0x106aa070, 0x65c43da, 0x4172328d, 0xfecf0bc6);
    ConstantRow5();
    hide Turns, Rounds, RoundConstant;
    EightRounds(v, w, 40, Rounds(v, w, 40), 0xd6670766, 0xdf46652f, 0x17aa0dfe, 0x9d4baf93, 0x26628815, 0x72ab4b91,
                0xa14c14b0, 0x4172328d, 0x26352d63, 0x838b2711, 0xdecd4715, 0xfda24c2e, 0xa80f11f0, 0xb7755da1,
                0xd57b94a9, 0xfecf0bc6);
  }

  lemma AbcRounds48(v: Working, w: seq<bv32>)
    requires Eight(w, 48, 0xfb3e89cb, 0xcc7617db, 0xb9e66c34, 0xa9993667, 0x84badedd, 0xc21462bc, 0x1487472c,
                   0xb20f7a99)
    requires Rounds(v, w, 48)
          == Working(0x4172328d, 0xa14c14b0, 0x72ab4b91, 0x26628815, 0xfecf0bc6, 0xd57b94a9, 0xb7755da1, 0xa80f11f0)
    ensures Rounds(v, w, 56)
         == Working(0x38cc9913, 0x3ec45cdb, 0xf5702fdb, 0x101fd28f, 0x54cb266b, 0xe50e1b4f, 0x9f4787c3, 0x529e7d00)
  {
    assert Turns(0x4172328d, 0xa14c14b0, 0x72ab4b91, 0x26628815, 0xfecf0bc6, 0xd57b94a9, 0xb7755da1, 0xa80f11f0,
                 0x19a4c116, 0xfb3e89cb, 0x5757ceb, 0xbd714038);
    assert Turns(0x5757ceb, 0x4172328d, 0xa14c14b0, 0x72ab4b91, 0xbd714038, 0xfecf0bc6, 0xd57b94a9, 0xb7755da1,
                 0x1e376c08, 0xcc7617db, 0xf11bfaa8, 0x6e5c390c);
    assert Turns(0xf11bfaa8, 0x5757ceb, 0x4172328d, 0xa14c14b0, 0x6e5c390c, 0xbd714038, 0xfecf0bc6, 0xd57b94a9,
                 0x2748774c, 0xb9e66c34, 0x7a0508a1, 0x52f1ccf7);
    assert Turns(0x7a0508a1, 0xf11bfaa8, 0x5757ceb, 0x4172328d, 0x52f1ccf7, 0x6e5c390c, 0xbd714038, 0xfecf0bc6,
                 0x34b0bcb5, 0xa9993667, 0x886e7a22, 0x49231c1e);
    assert Turns(0x886e7a22, 0x7a0508a1, 0xf11bfaa8, 0x5757ceb, 0x49231c1e, 0x52f1ccf7, 0x6e5c390c, 0xbd714038,
                 0x391c0cb3, 0x84badedd, 0x101fd28f, 0x529e7d00);
    assert Turns(0x101fd28f, 0x886e7a22, 0x7a0508a1, 0xf11bfaa8, 0x529e7d00, 0x49231c1e, 0x52f1ccf7, 0x6e5c390c,
                 0x4ed8aa4a, 0xc21462bc, 0xf5702fdb, 0x9f4787c3);
    assert Turns(0xf5702fdb, 0x101fd28f, 0x886e7a22, 0x7a0508a1, 0x9f4787c3, 0x529e7d00, 0x49231c1e, 0x52f1ccf7,
                 0x5b9cca4f, 0x1487472c, 0x3ec45cdb, 0xe50e1b4f);
    assert Turns(0x3ec45cdb, 0xf5702fdb, 0x101fd28f, 0x886e7a22, 0xe50e1b4f, 0x9f4787c3, 0x529e7d00, 0x49231c1e,
                 0x682e6ff3, 0xb20f7a99, 0x38cc9913, 0x54cb266b);
    ConstantRow6();
    hide Turns, Rounds, RoundConstant;
    EightRounds(v, w, 48, Rounds(v, w, 48), 0x5757ceb, 0xf11bfaa8, 0x7a0508a1, 0x886e7a22, 0x101fd28f, 0xf5702fdb,
                0x3ec45cdb, 0x38cc9913, 0xbd714038, 0x6e5c390c, 0x52f1ccf7, 0x49231c1e, 0x529e7d00, 0x9f4787c3,
                0xe50e1b4f, 0x54cb266b);
  }

  lemma AbcRounds56(v: Working, w: seq<bv32>)
    requires Eight(w, 56, 0xef57b9cd, 0xebe6b238, 0x9fe3095e, 0x78bc8d4b, 0xa43fcf15, 0x668b2ff8, 0xeeaba2cc,
                   0x12b1edeb)
    requires Rounds(v, w, 56)
          == Working(0x38cc9913, 0x3ec45cdb, 0xf5702fdb, 0x101fd28f, 0x54cb266b, 0xe50e1b4f, 0x9f4787c3, 0x529e7d00)
    ensures Rounds(v, w, 64)
         == Working(0x506e3058, 0xd39a2165, 0x4d24d6c, 0xb85e2ce9, 0x5ef50f24, 0xfb121210, 0x948d25b6, 0x961f4894)
  {
    assert Turns(0x38cc9913, 0x3ec45cdb, 0xf5702fdb, 0x101fd28f, 0x54cb266b, 0xe50e1b4f, 0x9f4787c3, 0x529e7d00,
                 0x748f82ee, 0xef57b9cd, 0xfcd1887b, 0x9b5e906c);
    assert Turns(0xfcd1887b, 0x38cc9913, 0x3ec45cdb, 0xf5702fdb, 0x9b5e906c, 0x54cb266b, 0xe50e1b4f, 0x9f4787c3,
                 0x78a5636f, 0xebe6b238, 0xc062d46f, 0x7e44008e);
    assert Turns(0xc062d46f, 0xfcd1887b, 0x38cc9913, 0x3ec45cdb, 0x7e44008e, 0x9b5e906c, 0x54cb266b, 0xe50e1b4f,
                 0x84c87814, 0x9fe3095e, 0xffb70472, 0x6d83bfc6);
    assert Turns(0xffb70472, 0xc062d46f, 0xfcd1887b, 0x38cc9913, 0x6d83bfc6, 0x7e44008e, 0x9b5e906c, 0x54cb266b,
                 0x8cc70208, 0x78bc8d4b, 0xb6ae8fff, 0xb21bad3d);
    assert Turns(0xb6ae8fff, 0xffb70472, 0xc062d46f, 0xfcd1887b, 0xb21bad3d, 0x6d83bfc6, 0x7e44008e, 0x9b5e906c,
                 0x90befffa, 0xa43fcf15, 0xb85e2ce9, 0x961f4894);
    assert Turns(0xb85e2ce9, 0xb6ae8fff, 0xffb70472, 0xc062d46f, 0x961f4894, 0xb21bad3d, 0x6d83bfc6, 0x7e44008e,
                 0xa4506ceb, 0x668b2ff8, 0x4d24d6c, 0x948d25b6);
    assert Turns(0x4d24d6c, 0xb85e2ce9, 0xb6ae8fff, 0xffb70472, 0x948d25b6, 0x961f4894, 0xb21bad3d, 0x6d83bfc6,
                 0xbef9a3f7, 0xeeaba2cc, 0xd39a2165, 0xfb121210);
    assert Turns(0xd39a2165, 0x4d24d6c, 0xb85e2ce9, 0xb6ae8fff, 0xfb121210, 0x948d25b6, 0x961f4894, 0xb21bad3d,
                 0xc67178f2, 0x12b1edeb, 0x506e3058, 0x5ef50f24);
    ConstantRow7();
    hide Turns, Rounds, RoundConstant;
    EightRounds(v, w, 56, Rounds(v, w, 56), 0xfcd1887b, 0xc062d46f, 0xffb70472, 0xb6ae8fff, 0xb85e2ce9, 0x4d24d6c,
                0xd39a2165, 0x506e3058, 0x9b5e906c, 0x7e44008e, 0x6d83bfc6, 0xb21bad3d, 0x961f4894, 0x948d25b6,
                0xfb121210, 0x5ef50f24);
  }

  lemma AbcCompression(h: HashValue, b: Block, w: seq<bv32>)
    requires w == Schedule(b, 64)
    requires h == [0x6a09e667, 0xbb67ae85, 0x3c6ef372, 0xa54ff53a, 0x510e527f, 0x9b05688c, 0x1f83d9ab, 0x5be0cd19]
    requires Eight(w, 0, 0x61626380, 0, 0, 0, 0, 0, 0, 0)
    requires Eight(w, 8, 0, 0, 0, 0, 0, 0, 0, 0x18)
    ensures Compress(h, b)
         == [0xba7816bf, 0x8f01cfea, 0x414140de, 0x5dae2223, 0xb00361a3, 0x96177a9c, 0xb410ff61, 0xf20015ad]
  {
    assert Sum(0x6a09e667, 0x506e3058) == 0xba7816bf;
    assert Sum(0xbb67ae85, 0xd39a2165) == 0x8f01cfea;
    assert Sum(0x3c6ef372, 0x4d24d6c) == 0x414140de;
    assert Sum(0xa54ff53a, 0xb85e2ce9) == 0x5dae2223;
    assert Sum(0x510e527f, 0x5ef50f24) == 0xb00361a3;
    assert Sum(0x9b05688c, 0xfb121210) == 0x96177a9c;
    assert Sum(0x1f83d9ab, 0x948d25b6) == 0xb410ff61;
    assert Sum(0x5be0cd19, 0x961f4894) == 0xf20015ad;
    var v := FromHash(h);
    RoundsStep(v, w, 0);
    hide Rounds, Schedule, Sum;
    assert v == Working(0x6a09e667, 0xbb67ae85, 0x3c6ef372, 0xa54ff53a, 0x510e527f, 0x9b05688c, 0x1f83d9ab, 0x5be0cd19);
    AbcWords16(b, w);
    AbcWords24(b, w);
    AbcWords32(b, w);
    AbcWords40(b, w);
    AbcWords48(b, w);
    AbcWords56(b, w);
    hide Eight;
    AbcRounds0(v, w);
    AbcRounds8(v, w);
    AbcRounds16(v, w);
    AbcRounds24(v, w);
    AbcRounds32(v, w);
    AbcRounds40(v, w);
    AbcRounds48(v, w);
    AbcRounds56(v, w);
    AddsTo(h, Rounds(v, w, 64), Compress(h, b));
  }

  // -------------------------------------------------------------------------
  // The first block of the two-block message
  // -------------------------------------------------------------------------

  lemma FirstWords16(b: Block, w: seq<bv32>)
    requires w == Schedule(b, 64)
    requires Eight(w, 0, 0x61626364, 0x62636465, 0x63646566, 0x64656667, 0x65666768, 0x66676869, 0x6768696a,
                   0x68696a6b)
    requires Eight(w, 8, 0x696a6b6c, 0x6a6b6c6d, 0x6b6c6d6e, 0x6c6d6e6f, 0x6d6e6f70, 0x6e6f7071, 0x80000000, 0)
    ensures Eight(w, 16, 0xeb8012ad, 0xa7c3ae92, 0x76e93ba2, 0xba42e743, 0x92a92204, 0xd847e75e, 0x9e160036,
                  0xb280a7cb)
  {
    assert Mixes(0x61626364, 0x62636465, 0x6a6b6c6d, 0x80000000, 0xeb8012ad);
    assert Mixes(0x62636465, 0x63646566, 0x6b6c6d6e, 0, 0xa7c3ae92);
    assert Mixes(0x63646566, 0x64656667, 0x6c6d6e6f, 0xeb8012ad, 0x76e93ba2);
    assert Mixes(0x64656667, 0x65666768, 0x6d6e6f70, 0xa7c3ae92, 0xba42e743);
    assert Mixes(0x65666768, 0x66676869, 0x6e6f7071, 0x76e93ba2, 0x92a92204);
    assert Mixes(0x66676869, 0x6768696a, 0x80000000, 0xba42e743, 0xd847e75e);
    assert Mixes(0x6768696a, 0x68696a6b, 0, 0x92a92204, 0x9e160036);
    assert Mixes(0x68696a6b, 0x696a6b6c, 0xeb8012ad, 0xd847e75e, 0xb280a7cb);
    hide Mixes, Schedule;
    NextEight(b, w, 16, 0xeb8012ad, 0xa7c3ae92, 0x76e93ba2, 0xba42e743, 0x92a92204, 0xd847e75e, 0x9e160036,
              0xb280a7cb);
  }

  lemma FirstWords24(b: Block, w: seq<bv32>)
    requires w == Schedule(b, 64)
    requires Eight(w, 8, 0x696a6b6c, 0x6a6b6c6d, 0x6b6c6d6e, 0x6c6d6e6f, 0x6d6e6f70, 0x6e6f7071, 0x80000000, 0)
    requires Eight(w, 16, 0xeb8012ad, 0xa7c3ae92, 0x76e93ba2, 0xba42e743, 0x92a92204, 0xd847e75e, 0x9e160036,
                   0xb280a7cb)
    ensures Eight(w, 24, 0xddeb1516, 0xf36586f4, 0x969cd048, 0xe959d99d, 0x6accc0ec, 0xf54cb098, 0x2af1b2da,
                  0xee59c4c9)
  {
    assert Mixes(0x696a6b6c, 0x6a6b6c6d, 0xa7c3ae92, 0x9e160036, 0xddeb1516);
    assert Mixes(0x6a6b6c6d, 0x6b6c6d6e, 0x76e93ba2, 0xb280a7cb, 0xf36586f4);
    assert Mixes(0x6b6c6d6e, 0x6c6d6e6f, 0xba42e743, 0xddeb1516, 0x969cd048);
    assert Mixes(0x6c6d6e6f, 0x6d6e6f70, 0x92a92204, 0xf36586f4, 0xe959d99d);
    assert Mixes(0x6d6e6f70, 0x6e6f7071, 0xd847e75e, 0x969cd048, 0x6accc0ec);
    assert Mixes(0x6e6f7071, 0x80000000, 0x9e160036, 0xe959d99d, 0xf54cb098);
    assert Mixes(0x80000000, 0, 0xb280a7cb, 0x6accc0ec, 0x2af1b2da);
    assert Mixes(0, 0xeb8012ad, 0xddeb1516, 0xf54cb098, 0xee59c4c9);
    hide Mixes, Schedule;
    NextEight(b, w, 24, 0xddeb1516, 0xf36586f4, 0x969cd048, 0xe959d99d, 0x6accc0ec, 0xf54cb098, 0x2af1b2da,
              0xee59c4c9);
  }

  lemma FirstWords32(b: Block, w: seq<bv32>)
    requires w == Schedule(b, 64)
    requires Eight(w, 16, 0xeb8012ad, 0xa7c3ae92, 0x76e93ba2, 0xba42e743, 0x92a92204, 0xd847e75e, 0x9e160036,
                   0xb280a7cb)
    requires Eight(w, 24, 0xddeb1516, 0xf36586f4, 0x969cd048, 0xe959d99d, 0x6accc0ec, 0xf54cb098, 0x2af1b2da,
                   0xee59c4c9)
    ensures Eight(w, 32, 0xa835e16a, 0x1dff4429, 0xd6e15959, 0xc397cd6e, 0x6f1801ca, 0x21574205, 0x35ff7a84,
                  0x9743ee78)
  {
    assert Mixes(0xeb8012ad, 0xa7c3ae92, 0xf36586f4, 0x2af1b2da, 0xa835e16a);
    assert Mixes(0xa7c3ae92, 0x76e93ba2, 0x969cd048, 0xee59c4c9, 0x1dff4429);
    assert Mixes(0x76e93ba2, 0xba42e743, 0xe959d99d, 0xa835e16a, 0xd6e15959);
    assert Mixes(0xba42e743, 0x92a92204, 0x6accc0ec, 0x1dff4429, 0xc397cd6e);
    assert Mixes(0x92a92204, 0xd847e75e, 0xf54cb098, 0xd6e15959, 0x6f1801ca);
    assert Mixes(0xd847e75e, 0x9e160036, 0x2af1b2da, 0xc397cd6e, 0x21574205);
    assert Mixes(0x9e160036, 0xb280a7cb, 0xee59c4c9, 0x6f1801ca, 0x35ff7a84);
    assert Mixes(0xb280a7cb, 0xddeb1516, 0xa835e16a, 0x21574205, 0x9743ee78);
    hide Mixes, Schedule;
    NextEight(b, w, 32, 0xa835e16a, 0x1dff4429, 0xd6e15959, 0xc397cd6e, 0x6f1801ca, 0x21574205, 0x35ff7a84,
              0x9743ee78);
  }

  lemma FirstWords40(b: Block, w: seq<bv32>)
    requires w == Schedule(b, 64)
    requires Eight(w, 24, 0xddeb1516, 0xf36586f4, 0x969cd048, 0xe959d99d, 0x6accc0ec, 0xf54cb098, 0x2af1b2da,
                   0xee59c4c9)
    requires Eight(w, 32, 0xa835e16a, 0x1dff4429, 0xd6e15959, 0xc397cd6e, 0x6f1801ca, 0x21574205, 0x35ff7a84,
                   0x9743ee78)
    ensures Eight(w, 40, 0xe44183e7, 0xd09f00d, 0x9c89af54, 0x42d5bef, 0x71f134d0, 0xf94f463, 0x7e49dc63, 0x6f65c997)
  {
    assert Mixes(0xddeb1516, 0xf36586f4, 0x1dff4429, 0x35ff7a84, 0xe44183e7);
    assert Mixes(0xf36586f4, 0x969cd048, 0xd6e15959, 0x9743ee78, 0xd09f00d);
    assert Mixes(0x969cd048, 0xe959d99d, 0xc397cd6e, 0xe44183e7, 0x9c89af54);
    assert Mixes(0xe959d99d, 0x6accc0ec, 0x6f1801ca, 0xd09f00d, 0x42d5bef);
    assert Mixes(0x6accc0ec, 0xf54cb098, 0x21574205, 0x9c89af54, 0x71f134d0);
    assert Mixes(0xf54cb098, 0x2af1b2da, 0x35ff7a84, 0x42d5bef, 0xf94f463);
    assert Mixes(0x2af1b2da, 0xee59c4c9, 0x9743ee78, 0x71f134d0, 0x7e49dc63);
    assert Mixes(0xee59c4c9, 0xa835e16a, 0xe44183e7, 0xf94f463, 0x6f65c997);
    hide Mixes, Schedule;
    NextEight(b, w, 40, 0xe44183e7, 0xd09f00d, 0x9c89af54, 0x42d5bef, 0x71f134d0, 0xf94f463, 0x7e49dc63,
              0x6f65c997);
  }

  lemma FirstWords48(b: Block, w: seq<bv32>)
    requires w == Schedule(b, 64)
    requires Eight(w, 32, 0xa835e16a, 0x1dff4429, 0xd6e15959, 0xc397cd6e, 0x6f1801ca, 0x21574205, 0x35ff7a84,
                   0x9743ee78)
    requires Eight(w, 40, 0xe44183e7, 0xd09f00d, 0x9c89af54, 0x42d5bef, 0x71f134d0, 0xf94f463, 0x7e49dc63, 0x6f65c997)
    ensures Eight(w, 48, 0xb706583, 0x179312ca, 0x503054e9, 0xba125c39, 0x7e9392c9, 0xd5cbaa1e, 0x78e0585d,
                  0xf6e7611c)
  {
    assert Mixes(0xa835e16a, 0x1dff4429, 0xd09f00d, 0x7e49dc63, 0xb706583);
    assert Mixes(0x1dff4429, 0xd6e15959, 0x9c89af54, 0x6f65c997, 0x179312ca);
    assert Mixes(0xd6e15959, 0xc397cd6e, 0x42d5bef, 0xb706583, 0x503054e9);
    assert Mixes(0xc397cd6e, 0x6f1801ca, 0x71f134d0, 0x179312ca, 0xba125c39);
    assert Mixes(0x6f1801ca, 0x21574205, 0xf94f463, 0x503054e9, 0x7e9392c9);
    assert Mixes(0x21574205, 0x35ff7a84, 0x7e49dc63, 0xba125c39, 0xd5cbaa1e);
    assert Mixes(0x35ff7a84, 0x9743ee78, 0x6f65c997, 0x7e9392c9, 0x78e0585d);
    assert Mixes(0x9743ee78, 0xe44183e7, 0xb706583, 0xd5cbaa1e, 0xf6e7611c);
    hide Mixes, Schedule;
    NextEight(b, w, 48, 0xb706583, 0x179312ca, 0x503054e9, 0xba125c39, 0x7e9392c9, 0xd5cbaa1e, 0x78e0585d,
              0xf6e7611c);
  }

  lemma FirstWords56(b: Block, w: seq<bv32>)
    requires w == Schedule(b, 64)
    requires Eight(w, 40, 0xe44183e7, 0xd09f00d, 0x9c89af54, 0x42d5bef, 0x71f134d0, 0xf94f463, 0x7e49dc63, 0x6f65c997)
    requires Eight(w, 48, 0xb706583, 0x179312ca, 0x503054e9, 0xba125c39, 0x7e9392c9, 0xd5cbaa1e, 0x78e0585d,
                   0xf6e7611c)
    ensures Eight(w, 56, 0x8ac830ce, 0x8b47a303, 0xfd6e627f, 0x8c6e2c6a, 0x4001adf1, 0x1a3dd097, 0xa9df6f62,
                  0x6aa60a39)
  {
    assert Mixes(0xe44183e7, 0xd09f00d, 0x179312ca, 0x78e0585d, 0x8ac830ce);
    assert Mixes(0xd09f00d, 0x9c89af54, 0x503054e9, 0xf6e7611c, 0x8b47a303);
    assert Mixes(0x9c89af54, 0x42d5bef, 0xba125c39, 0x8ac830ce, 0xfd6e627f);
    assert Mixes(0x42d5bef, 0x71f134d0, 0x7e9392c9, 0x8b47a303, 0x8c6e2c6a);
    assert Mixes(0x71f134d0, 0xf94f463, 0xd5cbaa1e, 0xfd6e627f, 0x4001adf1);
    assert Mixes(0xf94f463, 0x7e49dc63, 0x78e0585d, 0x8c6e2c6a, 0x1a3dd097);
    assert Mixes(0x7e49dc63, 0x6f65c997, 0xf6e7611c, 0x4001adf1, 0xa9df6f62);
    assert Mixes(0x6f65c997, 0xb706583, 0x8ac830ce, 0x1a3dd097, 0x6aa60a39);
    hide Mixes, Schedule;
    NextEight(b, w, 56, 0x8ac830ce, 0x8b47a303, 0xfd6e627f, 0x8c6e2c6a, 0x4001adf1, 0x1a3dd097, 0xa9df6f62,
              0x6aa60a39);
  }

  lemma FirstRounds0(v: Working, w: seq<bv32>)
    requires Eight(w, 0, 0x61626364, 0x62636465, 0x63646566, 0x64656667, 0x65666768, 0x66676869, 0x6768696a,
                   0x68696a6b)
    requires Rounds(v, w, 0)
          == Working(0x6a09e667, 0xbb67ae85, 0x3c6ef372, 0xa54ff53a, 0x510e527f, 0x9b05688c, 0x1f83d9ab, 0x5be0cd19)
    ensures Rounds(v, w, 8)
         == Working(0xd237e6db, 0x485835b7, 0x55c8ef48, 0xf921c212, 0xa401d211, 0x39a5b2ca, 0x7ff91c94, 0x5c4f88a)
  {
    assert Turns(0x6a09e667, 0xbb67ae85, 0x3c6ef372, 0xa54ff53a, 0x510e527f, 0x9b05688c, 0x1f83d9ab, 0x5be0cd19,
                 0x428a2f98, 0x61626364, 0x5d6aebb1, 0xfa2a4606);
    assert Turns(0x5d6aebb1, 0x6a09e667, 0xbb67ae85, 0x3c6ef372, 0xfa2a4606, 0x510e527f, 0x9b05688c, 0x1f83d9ab,
                 0x71374491, 0x62636465, 0x2f2d5fcf, 0x4eb1cfce);
    assert Turns(0x2f2d5fcf, 0x5d6aebb1, 0x6a09e667, 0xbb67ae85, 0x4eb1cfce, 0xfa2a4606, 0x510e527f, 0x9b05688c,
                 0xb5c0fbcf, 0x63646566, 0x97651825, 0x62d5c49e);
    assert Turns(0x97651825, 0x2f2d5fcf, 0x5d6aebb1, 0x6a09e667, 0x62d5c49e, 0x4eb1cfce, 0xfa2a4606, 0x510e527f,
                 0xe9b5dba5, 0x64656667, 0x4a8d64d5, 0x6494841b);
    assert Turns(0x4a8d64d5, 0x97651825, 0x2f2d5fcf, 0x5d6aebb1, 0x6494841b, 0x62d5c49e, 0x4eb1cfce, 0xfa2a4606,
                 0x3956c25b, 0x65666768, 0xf921c212, 0x5c4f88a);
    assert Turns(0xf921c212, 0x4a8d64d5, 0x97651825, 0x2f2d5fcf, 0x5c4f88a, 0x6494841b, 0x62d5c49e, 0x4eb1cfce,
                 0x59f111f1, 0x66676869, 0x55c8ef48, 0x7ff91c94);
    assert Turns(0x55c8ef48, 0xf921c212, 0x4a8d64d5, 0x97651825, 0x7ff91c94, 0x5c4f88a, 0x6494841b, 0x62d5c49e,
                 0x923f82a4, 0x6768696a, 0x485835b7, 0x39a5b2ca);
    assert Turns(0x485835b7, 0x55c8ef48, 0xf921c212, 0x4a8d64d5, 0x39a5b2ca, 0x7ff91c94, 0x5c4f88a, 0x6494841b,
                 0xab1c5ed5, 0x68696a6b, 0xd237e6db, 0xa401d211);
    ConstantRow0();
    hide Turns, Rounds, RoundConstant;
    EightRounds(v, w, 0, Rounds(v, w, 0), 0x5d6aebb1, 0x2f2d5fcf, 0x97651825, 0x4a8d64d5, 0xf921c212, 0x55c8ef48,
                0x485835b7, 0xd237e6db, 0xfa2a4606, 0x4eb1cfce, 0x62d5c49e, 0x6494841b, 0x5c4f88a, 0x7ff91c94,
                0x39a5b2ca, 0xa401d211);
  }

  lemma FirstRounds8(v: Working, w: seq<bv32>)
    requires Eight(w, 8, 0x696a6b6c, 0x6a6b6c6d, 0x6b6c6d6e, 0x6c6d6e6f, 0x6d6e6f70, 0x6e6f7071, 0x80000000, 0)
    requires Rounds(v, w, 8)
          == Working(0xd237e6db, 0x485835b7, 0x55c8ef48, 0xf921c212, 0xa401d211, 0x39a5b2ca, 0x7ff91c94, 0x5c4f88a)
    ensures Rounds(v, w, 16)
         == Working(0xc3486194, 0xdd16cbb3, 0xd68e6457, 0x101a4861, 0x1496a54f, 0x9162aded, 0x9243f8af, 0x839a0fc9)
  {
    assert Turns(0xd237e6db, 0x485835b7, 0x55c8ef48, 0xf921c212, 0xa401d211, 0x39a5b2ca, 0x7ff91c94, 0x5c4f88a,
                 0xd807aa98, 0x696a6b6c, 0x359f2bce, 0xc09ffec4);
    assert Turns(0x359f2bce, 0xd237e6db, 0x485835b7, 0x55c8ef48, 0xc09ffec4, 0xa401d211, 0x39a5b2ca, 0x7ff91c94,
                 0x12835b01, 0x6a6b6c6d, 0x3a474b2b, 0x9037b3b8);
    assert Turns(0x3a474b2b, 0x359f2bce, 0xd237e6db, 0x485835b7, 0x9037b3b8, 0xc09ffec4, 0xa401d211, 0x39a5b2ca,
                 0x243185be, 0x6b6c6d6e, 0xb8e2b4cb, 0x443ed29e);
    assert Turns(0xb8e2b4cb, 0x3a474b2b, 0x359f2bce, 0xd237e6db, 0x443ed29e, 0x9037b3b8, 0xc09ffec4, 0xa401d211,
                 0x550c7dc3, 0x6c6d6e6f, 0x1762215c, 0xee1c97a8);
    assert Turns(0x1762215c, 0xb8e2b4cb, 0x3a474b2b, 0x359f2bce, 0xee1c97a8, 0x443ed29e, 0x9037b3b8, 0xc09ffec4,
                 0x72be5d74, 0x6d6e6f70, 0x101a4861, 0x839a0fc9);
    assert Turns(0x101a4861, 0x1762215c, 0xb8e2b4cb, 0x3a474b2b, 0x839a0fc9, 0xee1c97a8, 0x443ed29e, 0x9037b3b8,
                 0x80deb1fe, 0x6e6f7071, 0xd68e6457, 0x9243f8af);
    assert Turns(0xd68e6457, 0x101a4861, 0x1762215c, 0xb8e2b4cb, 0x9243f8af, 0x839a0fc9, 0xee1c97a8, 0x443ed29e,
                 0x9bdc06a7, 0x80000000, 0xdd16cbb3, 0x9162aded);
    assert Turns(0xdd16cbb3, 0xd68e6457, 0x101a4861, 0x1762215c, 0x9162aded, 0x9243f8af, 0x839a0fc9, 0xee1c97a8,
                 0xc19bf174, 0, 0xc3486194, 0x1496a54f);
    ConstantRow1();
    hide Turns, Rounds, RoundConstant;
    EightRounds(v, w, 8, Rounds(v, w, 8), 0x359f2bce, 0x3a474b2b, 0xb8e2b4cb, 0x1762215c, 0x101a4861, 0xd68e6457,
                0xdd16cbb3, 0xc3486194, 0xc09ffec4, 0x9037b3b8, 0x443ed29e, 0xee1c97a8, 0x839a0fc9, 0x9243f8af,
                0x9162aded, 0x1496a54f);
  }

  lemma FirstRounds16(v: Working, w: seq<bv32>)
    requires Eight(w, 16, 0xeb8012ad, 0xa7c3ae92, 0x76e93ba2, 0xba42e743, 0x92a92204, 0xd847e75e, 0x9e160036,
                   0xb280a7cb)
    requires Rounds(v, w, 16)
          == Working(0xc3486194, 0xdd16cbb3, 0xd68e6457, 0x101a4861, 0x1496a54f, 0x9162aded, 0x9243f8af, 0x839a0fc9)
    ensures Rounds(v, w, 24)
         == Working(0x59fce6b9, 0xae2e2d4f, 0x1b2b66b8, 0xd70ac17d, 0xa2c7d51d, 0xf074fc95, 0xd560b028, 0x7cc6b262)
  {
    assert Turns(0xc3486194, 0xdd16cbb3, 0xd68e6457, 0x101a4861, 0x1496a54f, 0x9162aded, 0x9243f8af, 0x839a0fc9,
                 0xe49b69c1, 0xeb8012ad, 0xb9dcacb1, 0xd4f64250);
    assert Turns(0xb9dcacb1, 0xc3486194, 0xdd16cbb3, 0xd68e6457, 0xd4f64250, 0x1496a54f, 0x9162aded, 0x9243f8af,
                 0xefbe4786, 0xa7c3ae92, 0x46a193e, 0x885370b6);
    assert Turns(0x46a193e, 0xb9dcacb1, 0xc3486194, 0xdd16cbb3, 0x885370b6, 0xd4f64250, 0x1496a54f, 0x9162aded,
                 0xfc19dc6, 0x76e93ba2, 0xf402f058, 0x6f433549);
    assert Turns(0xf402f058, 0x46a193e, 0xb9dcacb1, 0xc3486194, 0x6f433549, 0x885370b6, 0xd4f64250, 0x1496a54f,
                 0x240ca1cc, 0xba42e743, 0x2139187b, 0x7c304206);
    assert Turns(0x2139187b, 0xf402f058, 0x46a193e, 0xb9dcacb1, 0x7c304206, 0x6f433549, 0x885370b6, 0xd4f64250,
                 0x2de92c6f, 0x92a92204, 0xd70ac17d, 0x7cc6b262);
    assert Turns(0xd70ac17d, 0x2139187b, 0xf402f058, 0x46a193e, 0x7cc6b262, 0x7c304206, 0x6f433549, 0x885370b6,
                 0x4a7484aa, 0xd847e75e, 0x1b2b66b8, 0xd560b028);
    assert Turns(0x1b2b66b8, 0xd70ac17d, 0x2139187b, 0xf402f058, 0xd560b028, 0x7cc6b262, 0x7c304206, 0x6f433549,
                 0x5cb0a9dc, 0x9e160036, 0xae2e2d4f, 0xf074fc95);
    assert Turns(0xae2e2d4f, 0x1b2b66b8, 0xd70ac17d, 0x2139187b, 0xf074fc95, 0xd560b028, 0x7cc6b262, 0x7c304206,
                 0x76f988da, 0xb280a7cb, 0x59fce6b9, 0xa2c7d51d);
    ConstantRow2();
    hide Turns, Rounds, RoundConstant;
    EightRounds(v, w, 16, Rounds(v, w, 16), 0xb9dcacb1, 0x46a193e, 0xf402f058, 0x2139187b, 0xd70ac17d, 0x1b2b66b8,
                0xae2e2d4f, 0x59fce6b9, 0xd4f64250, 0x885370b6, 0x6f433549, 0x7c304206, 0x7cc6b262, 0xd560b028,
                0xf074fc95, 0xa2c7d51d);
  }

  lemma FirstRounds24(v: Working, w: seq<bv32>)
    requires Eight(w, 24, 0xddeb1516, 0xf36586f4, 0x969cd048, 0xe959d99d, 0x6accc0ec, 0xf54cb098, 0x2af1b2da,
                   0xee59c4c9)
    requires Rounds(v, w, 24)
          == Working(0x59fce6b9, 0xae2e2d4f, 0x1b2b66b8, 0xd70ac17d, 0xa2c7d51d, 0xf074fc95, 0xd560b028, 0x7cc6b262)
    ensures Rounds(v, w, 32)
         == Working(0x5581ab07, 0xeb43f3ed, 0xdf7151a0, 0x74bcf468, 0xdf980085, 0x635d880, 0x7629c961, 0x72abaecd)
  {
    assert Turns(0x59fce6b9, 0xae2e2d4f, 0x1b2b66b8, 0xd70ac17d, 0xa2c7d51d, 0xf074fc95, 0xd560b028, 0x7cc6b262,
                 0x983e5152, 0xddeb1516, 0x4a885065, 0x763597fb);
    assert Turns(0x4a885065, 0x59fce6b9, 0xae2e2d4f, 0x1b2b66b8, 0x763597fb, 0xa2c7d51d, 0xf074fc95, 0xd560b028,
                 0xa831c66d, 0xf36586f4, 0x573221da, 0x36e74eb4);
    assert Turns(0x573221da, 0x4a885065, 0x59fce6b9, 0xae2e2d4f, 0x36e74eb4, 0x763597fb, 0xa2c7d51d, 0xf074fc95,
                 0xb00327c8, 0x969cd048, 0x128661da, 0x1162d575);
    assert Turns(0x128661da, 0x573221da, 0x4a885065, 0x59fce6b9, 0x1162d575, 0x36e74eb4, 0x763597fb, 0xa2c7d51d,
                 0xbf597fc7, 0xe959d99d, 0x73f858af, 0xe77c797f);
    assert Turns(0x73f858af, 0x128661da, 0x573221da, 0x4a885065, 0xe77c797f, 0x1162d575, 0x36e74eb4, 0x763597fb,
                 0xc6e00bf3, 0x6accc0ec, 0x74bcf468, 0x72abaecd);
    assert Turns(0x74bcf468, 0x73f858af, 0x128661da, 0x573221da, 0x72abaecd, 0xe77c797f, 0x1162d575, 0x36e74eb4,
                 0xd5a79147, 0xf54cb098, 0xdf7151a0, 0x7629c961);
    assert Turns(0xdf7151a0, 0x74bcf468, 0x73f858af, 0x128661da, 0x7629c961, 0x72abaecd, 0xe77c797f, 0x1162d575,
                 0x6ca6351, 0x2af1b2da, 0xeb43f3ed, 0x635d880);
    assert Turns(0xeb43f3ed, 0xdf7151a0, 0x74bcf468, 0x73f858af, 0x635d880, 0x7629c961, 0x72abaecd, 0xe77c797f,
                 0x14292967, 0xee59c4c9, 0x5581ab07, 0xdf980085);
    ConstantRow3();
    hide Turns, Rounds, RoundConstant;
    EightRounds(v, w, 24, Rounds(v, w, 24), 0x4a885065, 0x573221da, 0x128661da, 0x73f858af, 0x74bcf468, 0xdf7151a0,
                0xeb43f3ed, 0x5581ab07, 0x763597fb, 0x36e74eb4, 0x1162d575, 0xe77c797f, 0x72abaecd, 0x7629c961,
                0x635d880, 0xdf980085);
  }

  lemma FirstRounds32(v: Working, w: seq<bv32>)
    requires Eight(w, 32, 0xa835e16a, 0x1dff4429, 0xd6e15959, 0xc397cd6e, 0x6f1801ca, 0x21574205, 0x35ff7a84,
                   0x9743ee78)
    requires Rounds(v, w, 32)
          == Working(0x5581ab07, 0xeb43f3ed, 0xdf7151a0, 0x74bcf468, 0xdf980085, 0x635d880, 0x7629c961, 0x72abaecd)
    ensures Rounds(v, w, 40)
         == Working(0x7e4d30b8, 0x91ac9d5d, 0xa985b4be, 0x2c55d3a6, 0x9f5b9b6d, 0x68d8d590, 0xf72bf353, 0xb067c1af)
  {
    assert Turns(0x5581ab07, 0xeb43f3ed, 0xdf7151a0, 0x74bcf468, 0xdf980085, 0x635d880, 0x7629c961, 0x72abaecd,
                 0x27b70a85, 0xa835e16a, 0x9fc905c8, 0xa94d2af1);
    assert Turns(0x9fc905c8, 0x5581ab07, 0xeb43f3ed, 0xdf7151a0, 0xa94d2af1, 0xdf980085, 0x635d880, 0x7629c961,
                 0x2e1b2138, 0x1dff4429, 0x9ce5a62f, 0x6ef3b6bd);
    assert Turns(0x9ce5a62f, 0x9fc905c8, 0x5581ab07, 0xeb43f3ed, 0x6ef3b6bd, 0xa94d2af1, 0xdf980085, 0x635d880,
                 0x4d2c6dfc, 0xd6e15959, 0x1df8e885, 0x2a9e048e);
    assert Turns(0x1df8e885, 0x9ce5a62f, 0x9fc905c8, 0x5581ab07, 0x2a9e048e, 0x6ef3b6bd, 0xa94d2af1, 0xdf980085,
                 0x53380d13, 0xc397cd6e, 0x786dce8, 0xde2a21d1);
    assert Turns(0x786dce8, 0x1df8e885, 0x9ce5a62f, 0x9fc905c8, 0xde2a21d1, 0x2a9e048e, 0x6ef3b6bd, 0xa94d2af1,
                 0x650a7354, 0x6f1801ca, 0x2c55d3a6, 0xb067c1af);
    assert Turns(0x2c55d3a6, 0x786dce8, 0x1df8e885, 0x9ce5a62f, 0xb067c1af, 0xde2a21d1, 0x2a9e048e, 0x6ef3b6bd,
                 0x766a0abb, 0x21574205, 0xa985b4be, 0xf72bf353);
    assert Turns(0xa985b4be, 0x2c55d3a6, 0x786dce8, 0x1df8e885, 0xf72bf353, 0xb067c1af, 0xde2a21d1, 0x2a9e048e,
                 0x81c2c92e, 0x35ff7a84, 0x91ac9d5d, 0x68d8d590);
    assert Turns(0x91ac9d5d, 0xa985b4be, 0x2c55d3a6, 0x786dce8, 0x68d8d590, 0xf72bf353, 0xb067c1af, 0xde2a21d1,
                 0x92722c85, 0x9743ee78, 0x7e4d30b8, 0x9f5b9b6d);
    ConstantRow4();
    hide Turns, Rounds, RoundConstant;
    EightRounds(v, w, 32, Rounds(v, w, 32), 0x9fc905c8, 0x9ce5a62f, 0x1df8e885, 0x786dce8, 0x2c55d3a6, 0xa985b4be,
                0x91ac9d5d, 0x7e4d30b8, 0xa94d2af1, 0x6ef3b6bd, 0x2a9e048e, 0xde2a21d1, 0xb067c1af, 0xf72bf353,
                0x68d8d590, 0x9f5b9b6d);
  }

  lemma FirstRounds40(v: Working, w: seq<bv32>)
    requires Eight(w, 40, 0xe44183e7, 0xd09f00d, 0x9c89af54, 0x42d5bef, 0x71f134d0, 0xf94f463, 0x7e49dc63, 0x6f65c997)
    requires Rounds(v, w, 40)
          == Working(0x7e4d30b8, 0x91ac9d5d, 0xa985b4be, 0x2c55d3a6, 0x9f5b9b6d, 0x68d8d590, 0xf72bf353, 0xb067c1af)
    ensures Rounds(v, w, 48)
         == Working(0x13d82741, 0x165be9cd, 0x18f0d19d, 0xde71e2f2, 0xa7802a4d, 0xa483f080, 0x6b88472c, 0xff61c636)
  {
    assert Turns(0x7e4d30b8, 0x91ac9d5d, 0xa985b4be, 0x2c55d3a6, 0x9f5b9b6d, 0x68d8d590, 0xf72bf353, 0xb067c1af,
                 0xa2bfe8a1, 0xe44183e7, 0x7e056794, 0x423b26c0);
    assert Turns(0x7e056794, 0x7e4d30b8, 0x91ac9d5d, 0xa985b4be, 0x423b26c0, 0x9f5b9b6d, 0x68d8d590, 0xf72bf353,
                 0xa81a664b, 0xd09f00d, 0x508a16ab, 0x45459d97);
    assert Turns(0x508a16ab, 0x7e056794, 0x7e4d30b8, 0x91ac9d5d, 0x45459d97, 0x423b26c0, 0x9f5b9b6d, 0x68d8d590,
                 0xc24b8b70, 0x9c89af54, 0xb62c7013, 0x80a92a00);
    assert Turns(0xb62c7013, 0x508a16ab, 0x7e056794, 0x7e4d30b8, 0x80a92a00, 0x45459d97, 0x423b26c0, 0x9f5b9b6d,
                 0xc76c51a3, 0x42d5bef, 0x167361de, 0x41dd3844);
    assert Turns(0x167361de, 0xb62c7013, 0x508a16ab, 0x7e056794, 0x41dd3844, 0x80a92a00, 0x45459d97, 0x423b26c0,
                 0xd192e819, 0x71f134d0, 0xde71e2f2, 0xff61c636);
    assert Turns(0xde71e2f2, 0x167361de, 0xb62c7013, 0x508a16ab, 0xff61c636, 0x41dd3844, 0x80a92a00, 0x45459d97,
                 0xd6990624, 0xf94f463, 0x18f0d19d, 0x6b88472c);
    assert Turns(0x18f0d19d, 0xde71e2f2, 0x167361de, 0xb62c7013, 0x6b88472c, 0xff61c636, 0x41dd3844, 0x80a92a00,
                 0xf40e3585, 0x7e49dc63, 0x165be9cd, 0xa483f080);
    assert Turns(0x165be9cd, 0x18f0d19d, 0xde71e2f2, 0x167361de, 0xa483f080, 0x6b88472c, 0xff61c636, 0x41dd3844,
                 0x106aa070, 0x6f65c997, 0x13d82741, 0xa7802a4d);
    ConstantRow5();
    hide Turns, Rounds, RoundConstant;
    EightRounds(v, w, 40, Rounds(v, w, 40), 0x7e056794, 0x508a16ab, 0xb62c7013, 0x167361de, 0xde71e2f2, 0x18f0d19d,
                0x165be9cd, 0x13d82741, 0x423b26c0, 0x45459d97, 0x80a92a00, 0x41dd3844, 0xff61c636, 0x6b88472c,
                0xa483f080, 0xa7802a4d);
  }

  lemma FirstRounds48(v: Working, w: seq<bv32>)
    requires Eight(w, 48, 0xb706583, 0x179312ca, 0x503054e9, 0xba125c39, 0x7e9392c9, 0xd5cbaa1e, 0x78e0585d,
                   0xf6e7611c)
    requires Rounds(v, w, 48)
          == Working(0x13d82741, 0x165be9cd, 0x18f0d19d, 0xde71e2f2, 0xa7802a4d, 0xa483f080, 0x6b88472c, 0xff61c636)
    ensures Rounds(v, w, 56)
         == Working(0x9e57c4a0, 0xf907b313, 0x1d6de87a, 0xb8d55619, 0xeec13548, 0x61a41711, 0x3443bed4, 0x1c806a61)
  {
    assert Turns(0x13d82741, 0x165be9cd, 0x18f0d19d, 0xde71e2f2, 0xa7802a4d, 0xa483f080, 0x6b88472c, 0xff61c636,
                 0x19a4c116, 0xb706583, 0x17b9d99, 0xaeb10b60);
    assert Turns(0x17b9d99, 0x13d82741, 0x165be9cd, 0x18f0d19d, 0xaeb10b60, 0xa7802a4d, 0xa483f080, 0x6b88472c,
                 0x1e376c08, 0x179312ca, 0x543c99a1, 0x16f134b6);
    assert Turns(0x543c99a1, 0x17b9d99, 0x13d82741, 0x165be9cd, 0x16f134b6, 0xaeb10b60, 0xa7802a4d, 0xa483f080,
                 0x2748774c, 0x503054e9, 0x758ca97a, 0x100cf2ea);
    assert Turns(0x758ca97a, 0x543c99a1, 0x17b9d99, 0x13d82741, 0x100cf2ea, 0x16f134b6, 0xaeb10b60, 0xa7802a4d,
                 0x34b0bcb5, 0xba125c39, 0x81c1cde0, 0x5c47eb7b);
    assert Turns(0x81c1cde0, 0x758ca97a, 0x543c99a1, 0x17b9d99, 0x5c47eb7b, 0x100cf2ea, 0x16f134b6, 0xaeb10b60,
                 0x391c0cb3, 0x7e9392c9, 0xb8d55619, 0x1c806a61);
    assert Turns(0xb8d55619, 0x81c1cde0, 0x758ca97a, 0x543c99a1, 0x1c806a61, 0x5c47eb7b, 0x100cf2ea, 0x16f134b6,
                 0x4ed8aa4a, 0xd5cbaa1e, 0x1d6de87a, 0x3443bed4);
    assert Turns(0x1d6de87a, 0xb8d55619, 0x81c1cde0, 0x758ca97a, 0x3443bed4, 0x1c806a61, 0x5c47eb7b, 0x100cf2ea,
                 0x5b9cca4f, 0x78e0585d, 0xf907b313, 0x61a41711);
    assert Turns(0xf907b313, 0x1d6de87a, 0xb8d55619, 0x81c1cde0, 0x61a41711, 0x3443bed4, 0x1c806a61, 0x5c47eb7b,
                 0x682e6ff3, 0xf6e7611c, 0x9e57c4a0, 0xeec13548);
    ConstantRow6();
    hide Turns, Rounds, RoundConstant;
    EightRounds(v, w, 48, Rounds(v, w, 48), 0x17b9d99, 0x543c99a1, 0x758ca97a, 0x81c1cde0, 0xb8d55619, 0x1d6de87a,
                0xf907b313, 0x9e57c4a0, 0xaeb10b60, 0x16f134b6, 0x100cf2ea, 0x5c47eb7b, 0x1c806a61, 0x3443bed4,
                0x61a41711, 0xeec13548);
  }

  lemma FirstRounds56(v: Working, w: seq<bv32>)
    requires Eight(w, 56, 0x8ac830ce, 0x8b47a303, 0xfd6e627f, 0x8c6e2c6a, 0x4001adf1, 0x1a3dd097, 0xa9df6f62,
                   0x6aa60a39)
    requires Rounds(v, w, 56)
          == Working(0x9e57c4a0, 0xf907b313, 0x1d6de87a, 0xb8d55619, 0xeec13548, 0x61a41711, 0x3443bed4, 0x1c806a61)
    ensures Rounds(v, w, 64)
         == Working(0x1bdc6f6f, 0x86126910, 0xf6f443f8, 0xbcfce922, 0x25d2430a, 0x2fc08f85, 0xacc75916, 0x962d8621)
  {
    assert Turns(0x9e57c4a0, 0xf907b313, 0x1d6de87a, 0xb8d55619, 0xeec13548, 0x61a41711, 0x3443bed4, 0x1c806a61,
                 0x748f82ee, 0x8ac830ce, 0x71629856, 0x2f6c8c4e);
    assert Turns(0x71629856, 0x9e57c4a0, 0xf907b313, 0x1d6de87a, 0x2f6c8c4e, 0xeec13548, 0x61a41711, 0x3443bed4,
                 0x78a5636f, 0x8b47a303, 0x7c015a2c, 0xcb9d3dd0);
    assert Turns(0x7c015a2c, 0x71629856, 0x9e57c4a0, 0xf907b313, 0xcb9d3dd0, 0x2f6c8c4e, 0xeec13548, 0x61a41711,
                 0x84c87814, 0xfd6e627f, 0x921fccb6, 0x43d8a034);
    assert Turns(0x921fccb6, 0x7c015a2c, 0x71629856, 0x9e57c4a0, 0x43d8a034, 0xcb9d3dd0, 0x2f6c8c4e, 0xeec13548,
                 0x8cc70208, 0x8c6e2c6a, 0xe18f259a, 0x51e15869);
    assert Turns(0xe18f259a, 0x921fccb6, 0x7c015a2c, 0x71629856, 0x51e15869, 0x43d8a034, 0xcb9d3dd0, 0x2f6c8c4e,
                 0x90befffa, 0x4001adf1, 0xbcfce922, 0x962d8621);
    assert Turns(0xbcfce922, 0xe18f259a, 0x921fccb6, 0x7c015a2c, 0x962d8621, 0x51e15869, 0x43d8a034, 0xcb9d3dd0,
                 0xa4506ceb, 0x1a3dd097, 0xf6f443f8, 0xacc75916);
    assert Turns(0xf6f443f8, 0xbcfce922, 0xe18f259a, 0x921fccb6, 0xacc75916, 0x962d8621, 0x51e15869, 0x43d8a034,
                 0xbef9a3f7, 0xa9df6f62, 0x86126910, 0x2fc08f85);
    assert Turns(0x86126910, 0xf6f443f8, 0xbcfce922, 0xe18f259a, 0x2fc08f85, 0xacc75916, 0x962d8621, 0x51e15869,
                 0xc67178f2, 0x6aa60a39, 0x1bdc6f6f, 0x25d2430a);
    ConstantRow7();
    hide Turns, Rounds, RoundConstant;
    EightRounds(v, w, 56, Rounds(v, w, 56), 0x71629856, 0x7c015a2c, 0x921fccb6, 0xe18f259a, 0xbcfce922, 0xf6f443f8,
                0x86126910, 0x1bdc6f6f, 0x2f6c8c4e, 0xcb9d3dd0, 0x43d8a034, 0x51e15869, 0x962d8621, 0xacc75916,
                0x2fc08f85, 0x25d2430a);
  }

  lemma FirstCompression(h: HashValue, b: Block, w: seq<bv32>)
    requires w == Schedule(b, 64)
    requires h == [0x6a09e667, 0xbb67ae85, 0x3c6ef372, 0xa54ff53a, 0x510e527f, 0x9b05688c, 0x1f83d9ab, 0x5be0cd19]
    requires Eight(w, 0, 0x61626364, 0x62636465, 0x63646566, 0x64656667, 0x65666768, 0x66676869, 0x6768696a,
                   0x68696a6b)
    requires Eight(w, 8, 0x696a6b6c, 0x6a6b6c6d, 0x6b6c6d6e, 0x6c6d6e6f, 0x6d6e6f70, 0x6e6f7071, 0x80000000, 0)
    ensures Compress(h, b)
         == [0x85e655d6, 0x417a1795, 0x3363376a, 0x624cde5c, 0x76e09589, 0xcac5f811, 0xcc4b32c1, 0xf20e533a]
  {
    assert Sum(0x6a09e667, 0x1bdc6f6f) == 0x85e655d6;
    assert Sum(0xbb67ae85, 0x86126910) == 0x417a1795;
    assert Sum(0x3c6ef372, 0xf6f443f8) == 0x3363376a;
    assert Sum(0xa54ff53a, 0xbcfce922) == 0x624cde5c;
    assert Sum(0x510e527f, 0x25d2430a) == 0x76e09589;
    assert Sum(0x9b05688c, 0x2fc08f85) == 0xcac5f811;
    assert Sum(0x1f83d9ab, 0xacc75916) == 0xcc4b32c1;
    assert Sum(0x5be0cd19, 0x962d8621) == 0xf20e533a;
    var v := FromHash(h);
    RoundsStep(v, w, 0);
    hide Rounds, Schedule, Sum;
    assert v == Working(0x6a09e667, 0xbb67ae85, 0x3c6ef372, 0xa54ff53a, 0x510e527f, 0x9b05688c, 0x1f83d9ab, 0x5be0cd19);
    FirstWords16(b, w);
    FirstWords24(b, w);
    FirstWords32(b, w);
    FirstWords40(b, w);
    FirstWords48(b, w);
    FirstWords56(b, w);
    hide Eight;
    FirstRounds0(v, w);
    FirstRounds8(v, w);
    FirstRounds16(v, w);
    FirstRounds24(v, w);
    FirstRounds32(v, w);
    FirstRounds40(v, w);
    FirstRounds48(v, w);
    FirstRounds56(v, w);
    AddsTo(h, Rounds(v, w, 64), Compress(h, b));
  }

  // -------------------------------------------------------------------------
  // Its second block
  // -------------------------------------------------------------------------

  lemma SecondWords16(b: Block, w: seq<bv32>)
    requires w == Schedule(b, 64)
    requires Eight(w, 0, 0, 0, 0, 0, 0, 0, 0, 0)
    requires Eight(w, 8, 0, 0, 0, 0, 0, 0, 0, 0x1c0)
    ensures Eight(w, 16, 0, 0xd80000, 0, 0x3677, 0, 0x1df5600d, 0x1c0, 0x1c00501c)
  {
    assert Mixes(0, 0, 0, 0, 0);
    assert Mixes(0, 0, 0, 0x1c0, 0xd80000);
    assert Mixes(0, 0, 0, 0xd80000, 0x3677);
    assert Mixes(0, 0, 0, 0x3677, 0x1df5600d);
    assert Mixes(0, 0, 0x1c0, 0, 0x1c0);
    assert Mixes(0, 0, 0, 0x1df5600d, 0x1c00501c);
    hide Mixes, Schedule;
    NextEight(b, w, 16, 0, 0xd80000, 0, 0x3677, 0, 0x1df5600d, 0x1c0, 0x1c00501c);
  }

  lemma SecondWords24(b: Block, w: seq<bv32>)
    requires w == Schedule(b, 64)
    requires Eight(w, 8, 0, 0, 0, 0, 0, 0, 0, 0x1c0)
    requires Eight(w, 16, 0, 0xd80000, 0, 0x3677, 0, 0x1df5600d, 0x1c0, 0x1c00501c)
    ensures Eight(w, 24, 0x1b00000, 0x220a8d94, 0xa365, 0x177017e7, 0x63d38035, 0x90ab713, 0x4c7539ca, 0xf19a8c9)
  {
    assert Mixes(0, 0, 0xd80000, 0x1c0, 0x1b00000);
    assert Mixes(0, 0, 0, 0x1c00501c, 0x220a8d94);
    assert Mixes(0, 0, 0x3677, 0x1b00000, 0xa365);
    assert Mixes(0, 0, 0, 0x220a8d94, 0x177017e7);
    assert Mixes(0, 0, 0x1df5600d, 0xa365, 0x63d38035);
    assert Mixes(0, 0, 0x1c0, 0x177017e7, 0x90ab713);
    assert Mixes(0, 0x1c0, 0x1c00501c, 0x63d38035, 0x4c7539ca);
    assert Mixes(0x1c0, 0, 0x1b00000, 0x90ab713, 0xf19a8c9);
    hide Mixes, Schedule;
    NextEight(b, w, 24, 0x1b00000, 0x220a8d94, 0xa365, 0x177017e7, 0x63d38035, 0x90ab713, 0x4c7539ca, 0xf19a8c9);
  }

  lemma SecondWords32(b: Block, w: seq<bv32>)
    requires w == Schedule(b, 64)
    requires Eight(w, 16, 0, 0xd80000, 0, 0x3677, 0, 0x1df5600d, 0x1c0, 0x1c00501c)
    requires Eight(w, 24, 0x1b00000, 0x220a8d94, 0xa365, 0x177017e7, 0x63d38035, 0x90ab713, 0x4c7539ca, 0xf19a8c9)
    ensures Eight(w, 32, 0x5df4b0c4, 0xe257036a, 0xc97bb6f1, 0xc5b46f4d, 0xf8253c4e, 0xa558d189, 0x78696285,
                  0xed07117f)
  {
    assert Mixes(0, 0xd80000, 0x220a8d94, 0x4c7539ca, 0x5df4b0c4);
    assert Mixes(0xd80000, 0, 0xa365, 0xf19a8c9, 0xe257036a);
    assert Mixes(0, 0x3677, 0x177017e7, 0x5df4b0c4, 0xc97bb6f1);
    assert Mixes(0x3677, 0, 0x63d38035, 0xe257036a, 0xc5b46f4d);
    assert Mixes(0, 0x1df5600d, 0x90ab713, 0xc97bb6f1, 0xf8253c4e);
    assert Mixes(0x1df5600d, 0x1c0, 0x4c7539ca, 0xc5b46f4d, 0xa558d189);
    assert Mixes(0x1c0, 0x1c00501c, 0xf19a8c9, 0xf8253c4e, 0x78696285);
    assert Mixes(0x1c00501c, 0x1b00000, 0x5df4b0c4, 0xa558d189, 0xed07117f);
    hide Mixes, Schedule;
    NextEight(b, w, 32, 0x5df4b0c4, 0xe257036a, 0xc97bb6f1, 0xc5b46f4d, 0xf8253c4e, 0xa558d189, 0x78696285,
              0xed07117f);
  }

  lemma SecondWords40(b: Block, w: seq<bv32>)
    requires w == Schedule(b, 64)
    requires Eight(w, 24, 0x1b00000, 0x220a8d94, 0xa365, 0x177017e7, 0x63d38035, 0x90ab713, 0x4c7539ca, 0xf19a8c9)
    requires Eight(w, 32, 0x5df4b0c4, 0xe257036a, 0xc97bb6f1, 0xc5b46f4d, 0xf8253c4e, 0xa558d189, 0x78696285,
                   0xed07117f)
    ensures Eight(w, 40, 0x107358f6, 0x390ae496, 0x565010a2, 0xc51d7d44, 0x9e74c972, 0x6614b561, 0x30fc129d,
                  0x9ac684a8)
  {
    assert Mixes(0x1b00000, 0x220a8d94, 0xe257036a, 0x78696285, 0x107358f6);
    assert Mixes(0x220a8d94, 0xa365, 0xc97bb6f1, 0xed07117f, 0x390ae496);
    assert Mixes(0xa365, 0x177017e7, 0xc5b46f4d, 0x107358f6, 0x565010a2);
    assert Mixes(0x177017e7, 0x63d38035, 0xf8253c4e, 0x390ae496, 0xc51d7d44);
    assert Mixes(0x63d38035, 0x90ab713, 0xa558d189, 0x565010a2, 0x9e74c972);
    assert Mixes(0x90ab713, 0x4c7539ca, 0x78696285, 0xc51d7d44, 0x6614b561);
    assert Mixes(0x4c7539ca, 0xf19a8c9, 0xed07117f, 0x9e74c972, 0x30fc129d);
    assert Mixes(0xf19a8c9, 0x5df4b0c4, 0x107358f6, 0x6614b561, 0x9ac684a8);
    hide Mixes, Schedule;
    NextEight(b, w, 40, 0x107358f6, 0x390ae496, 0x565010a2, 0xc51d7d44, 0x9e74c972, 0x6614b561, 0x30fc129d,
              0x9ac684a8);
  }

  lemma SecondWords48(b: Block, w: seq<bv32>)
    requires w == Schedule(b, 64)
    requires Eight(w, 32, 0x5df4b0c4, 0xe257036a, 0xc97bb6f1, 0xc5b46f4d, 0xf8253c4e, 0xa558d189, 0x78696285,
                   0xed07117f)
    requires Eight(w, 40, 0x107358f6, 0x390ae496, 0x565010a2, 0xc51d7d44, 0x9e74c972, 0x6614b561, 0x30fc129d,
                   0x9ac684a8)
    ensures Eight(w, 48, 0x2b658dbd, 0xe290f793, 0x9eebb24c, 0x9713b5de, 0x41061ab7, 0xe022e23b, 0x772079e,
                  0x7de22d9c)
  {
    assert Mixes(0x5df4b0c4, 0xe257036a, 0x390ae496, 0x30fc129d, 0x2b658dbd);
    assert Mixes(0xe257036a, 0xc97bb6f1, 0x565010a2, 0x9ac684a8, 0xe290f793);
    assert Mixes(0xc97bb6f1, 0xc5b46f4d, 0xc51d7d44, 0x2b658dbd, 0x9eebb24c);
    assert Mixes(0xc5b46f4d, 0xf8253c4e, 0x9e74c972, 0xe290f793, 0x9713b5de);
    assert Mixes(0xf8253c4e, 0xa558d189, 0x6614b561, 0x9eebb24c, 0x41061ab7);
    assert Mixes(0xa558d189, 0x78696285, 0x30fc129d, 0x9713b5de, 0xe022e23b);
    assert Mixes(0x78696285, 0xed07117f, 0x9ac684a8, 0x41061ab7, 0x772079e);
    assert Mixes(0xed07117f, 0x107358f6, 0x2b658dbd, 0xe022e23b, 0x7de22d9c);
    hide Mixes, Schedule;
    NextEight(b, w, 48, 0x2b658dbd, 0xe290f793, 0x9eebb24c, 0x9713b5de, 0x41061ab7, 0xe022e23b, 0x772079e,
              0x7de22d9c);
  }

  lemma SecondWords56(b: Block, w: seq<bv32>)
    requires w == Schedule(b, 64)
    requires Eight(w, 40, 0x107358f6, 0x390ae496, 0x565010a2, 0xc51d7d44, 0x9e74c972, 0x6614b561, 0x30fc129d,
                   0x9ac684a8)
    requires Eight(w, 48, 0x2b658dbd, 0xe290f793, 0x9eebb24c, 0x9713b5de, 0x41061ab7, 0xe022e23b, 0x772079e,
                   0x7de22d9c)
    ensures Eight(w, 56, 0xc8b83778, 0x75a79849, 0xd93dbddb, 0xa036c9d, 0xcb4f6ac6, 0x823f97e2, 0xea2f2a7a,
                  0xb9018b52)
  {
    assert Mixes(0x107358f6, 0x390ae496, 0xe290f793, 0x772079e, 0xc8b83778);
    assert Mixes(0x390ae496, 0x565010a2, 0x9eebb24c, 0x7de22d9c, 0x75a79849);
    assert Mixes(0x565010a2, 0xc51d7d44, 0x9713b5de, 0xc8b83778, 0xd93dbddb);
    assert Mixes(0xc51d7d44, 0x9e74c972, 0x41061ab7, 0x75a79849, 0xa036c9d);
    assert Mixes(0x9e74c972, 0x6614b561, 0xe022e23b, 0xd93dbddb, 0xcb4f6ac6);
    assert Mixes(0x6614b561, 0x30fc129d, 0x772079e, 0xa036c9d, 0x823f97e2);
    assert Mixes(0x30fc129d, 0x9ac684a8, 0x7de22d9c, 0xcb4f6ac6, 0xea2f2a7a);
    assert Mixes(0x9ac684a8, 0x2b658dbd, 0xc8b83778, 0x823f97e2, 0xb9018b52);
    hide Mixes, Schedule;
    NextEight(b, w, 56, 0xc8b83778, 0x75a79849, 0xd93dbddb, 0xa036c9d, 0xcb4f6ac6, 0x823f97e2, 0xea2f2a7a,
              0xb9018b52);
  }

  lemma SecondRounds0(v: Working, w: seq<bv32>)
    requires Eight(w, 0, 0, 0, 0, 0, 0, 0, 0, 0)
    requires Rounds(v, w, 0)
          == Working(0x85e655d6, 0x417a1795, 0x3363376a, 0x624cde5c, 0x76e09589, 0xcac5f811, 0xcc4b32c1, 0xf20e533a)
    ensures Rounds(v, w, 8)
         == Working(0xbf9a93a0, 0x89bba3f1, 0x3eeb6c06, 0x185a5d79, 0x59abdd1, 0xa34df03, 0xfe20cda6, 0x8dff3001)
  {
    assert Turns(0x85e655d6, 0x417a1795, 0x3363376a, 0x624cde5c, 0x76e09589, 0xcac5f811, 0xcc4b32c1, 0xf20e533a,
                 0x428a2f98, 0, 0x7c20c838, 0x4670ae6e);
    assert Turns(0x7c20c838, 0x85e655d6, 0x417a1795, 0x3363376a, 0x4670ae6e, 0x76e09589, 0xcac5f811, 0xcc4b32c1,
                 0x71374491, 0, 0x7c3c0f86, 0x8c51be64);
    assert Turns(0x7c3c0f86, 0x7c20c838, 0x85e655d6, 0x417a1795, 0x8c51be64, 0x4670ae6e, 0x76e09589, 0xcac5f811,
                 0xb5c0fbcf, 0, 0xfd1eebdc, 0xaf71b9ea);
    assert Turns(0xfd1eebdc, 0x7c3c0f86, 0x7c20c838, 0x85e655d6, 0xaf71b9ea, 0x8c51be64, 0x4670ae6e, 0x76e09589,
                 0xe9b5dba5, 0, 0xf268faa9, 0xe20362ef);
    assert Turns(0xf268faa9, 0xfd1eebdc, 0x7c3c0f86, 0x7c20c838, 0xe20362ef, 0xaf71b9ea, 0x8c51be64, 0x4670ae6e,
                 0x3956c25b, 0, 0x185a5d79, 0x8dff3001);
    assert Turns(0x185a5d79, 0xf268faa9, 0xfd1eebdc, 0x7c3c0f86, 0x8dff3001, 0xe20362ef, 0xaf71b9ea, 0x8c51be64,
                 0x59f111f1, 0, 0x3eeb6c06, 0xfe20cda6);
    assert Turns(0x3eeb6c06, 0x185a5d79, 0xf268faa9, 0xfd1eebdc, 0xfe20cda6, 0x8dff3001, 0xe20362ef, 0xaf71b9ea,
                 0x923f82a4, 0, 0x89bba3f1, 0xa34df03);
    assert Turns(0x89bba3f1, 0x3eeb6c06, 0x185a5d79, 0xf268faa9, 0xa34df03, 0xfe20cda6, 0x8dff3001, 0xe20362ef,
                 0xab1c5ed5, 0, 0xbf9a93a0, 0x59abdd1);
    ConstantRow0();
    hide Turns, Rounds, RoundConstant;
    EightRounds(v, w, 0, Rounds(v, w, 0), 0x7c20c838, 0x7c3c0f86, 0xfd1eebdc, 0xf268faa9, 0x185a5d79, 0x3eeb6c06,
                0x89bba3f1, 0xbf9a93a0, 0x4670ae6e, 0x8c51be64, 0xaf71b9ea, 0xe20362ef, 0x8dff3001, 0xfe20cda6,
                0xa34df03, 0x59abdd1);
  }

  lemma SecondRounds8(v: Working, w: seq<bv32>)
    requires Eight(w, 8, 0, 0, 0, 0, 0, 0, 0, 0x1c0)
    requires Rounds(v, w, 8)
          == Working(0xbf9a93a0, 0x89bba3f1, 0x3eeb6c06, 0x185a5d79, 0x59abdd1, 0xa34df03, 0xfe20cda6, 0x8dff3001)
    ensures Rounds(v, w, 16)
         == Working(0x16a8cc79, 0xcea5cbc, 0xd74080fa, 0x35ee996d, 0xfcb1f6f, 0x60356548, 0x68aa893f, 0x5c24e2a2)
  {
    assert Turns(0xbf9a93a0, 0x89bba3f1, 0x3eeb6c06, 0x185a5d79, 0x59abdd1, 0xa34df03, 0xfe20cda6, 0x8dff3001,
                 0xd807aa98, 0, 0x2c096744, 0xabfa465b);
    assert Turns(0x2c096744, 0xbf9a93a0, 0x89bba3f1, 0x3eeb6c06, 0xabfa465b, 0x59abdd1, 0xa34df03, 0xfe20cda6,
                 0x12835b01, 0, 0x2d964e86, 0xaa27ed82);
    assert Turns(0x2d964e86, 0x2c096744, 0xbf9a93a0, 0x89bba3f1, 0xaa27ed82, 0xabfa465b, 0x59abdd1, 0xa34df03,
                 0x243185be, 0, 0x5b35025b, 0x10e77723);
    assert Turns(0x5b35025b, 0x2d964e86, 0x2c096744, 0xbf9a93a0, 0x10e77723, 0xaa27ed82, 0xabfa465b, 0x59abdd1,
                 0x550c7dc3, 0, 0x5eb4ec40, 0xe11b4548);
    assert Turns(0x5eb4ec40, 0x5b35025b, 0x2d964e86, 0x2c096744, 0xe11b4548, 0x10e77723, 0xaa27ed82, 0xabfa465b,
                 0x72be5d74, 0, 0x35ee996d, 0x5c24e2a2);
    assert Turns(0x35ee996d, 0x5eb4ec40, 0x5b35025b, 0x2d964e86, 0x5c24e2a2, 0xe11b4548, 0x10e77723, 0xaa27ed82,
                 0x80deb1fe, 0, 0xd74080fa, 0x68aa893f);
    assert Turns(0xd74080fa, 0x35ee996d, 0x5eb4ec40, 0x5b35025b, 0x68aa893f, 0x5c24e2a2, 0xe11b4548, 0x10e77723,
                 0x9bdc06a7, 0, 0xcea5cbc, 0x60356548);
    assert Turns(0xcea5cbc, 0xd74080fa, 0x35ee996d, 0x5eb4ec40, 0x60356548, 0x68aa893f, 0x5c24e2a2, 0xe11b4548,
                 0xc19bf174, 0x1c0, 0x16a8cc79, 0xfcb1f6f);
    ConstantRow1();
    hide Turns, Rounds, RoundConstant;
    EightRounds(v, w, 8, Rounds(v, w, 8), 0x2c096744, 0x2d964e86, 0x5b35025b, 0x5eb4ec40, 0x35ee996d, 0xd74080fa,
                0xcea5cbc, 0x16a8cc79, 0xabfa465b, 0xaa27ed82, 0x10e77723, 0xe11b4548, 0x5c24e2a2, 0x68aa893f,
                0x60356548, 0xfcb1f6f);
  }

  lemma SecondRounds16(v: Working, w: seq<bv32>)
    requires Eight(w, 16, 0, 0xd80000, 0, 0x3677, 0, 0x1df5600d, 0x1c0, 0x1c00501c)
    requires Rounds(v, w, 16)
          == Working(0x16a8cc79, 0xcea5cbc, 0xd74080fa, 0x35ee996d, 0xfcb1f6f, 0x60356548, 0x68aa893f, 0x5c24e2a2)
    ensures Rounds(v, w, 24)
         == Working(0xa4195b91, 0xf13ae55b, 0xd44dc81a, 0x20aad899, 0xeddbd6ed, 0x966aa287, 0x5bace62d, 0xcc4769f2)
  {
    assert Turns(0x16a8cc79, 0xcea5cbc, 0xd74080fa, 0x35ee996d, 0xfcb1f6f, 0x60356548, 0x68aa893f, 0x5c24e2a2,
                 0xe49b69c1, 0, 0xf16f634e, 0x8b21cdc1);
    assert Turns(0xf16f634e, 0x16a8cc79, 0xcea5cbc, 0xd74080fa, 0x8b21cdc1, 0xfcb1f6f, 0x60356548, 0x68aa893f,
                 0xefbe4786, 0xd80000, 0x23dcb6c2, 0xca9182d3);
    assert Turns(0x23dcb6c2, 0xf16f634e, 0x16a8cc79, 0xcea5cbc, 0xca9182d3, 0x8b21cdc1, 0xfcb1f6f, 0x60356548,
                 0xfc19dc6, 0, 0xdcff40fd, 0x69bf7b95);
    assert Turns(0xdcff40fd, 0x23dcb6c2, 0xf16f634e, 0x16a8cc79, 0x69bf7b95, 0xca9182d3, 0x8b21cdc1, 0xfcb1f6f,
                 0x240ca1cc, 0x3677, 0x76f1a2bc, 0xdc84bb1);
    assert Turns(0x76f1a2bc, 0xdcff40fd, 0x23dcb6c2, 0xf16f634e, 0xdc84bb1, 0x69bf7b95, 0xca9182d3, 0x8b21cdc1,
                 0x2de92c6f, 0, 0x20aad899, 0xcc4769f2);
    assert Turns(0x20aad899, 0x76f1a2bc, 0xdcff40fd, 0x23dcb6c2, 0xcc4769f2, 0xdc84bb1, 0x69bf7b95, 0xca9182d3,
                 0x4a7484aa, 0x1df5600d, 0xd44dc81a, 0x5bace62d);
    assert Turns(0xd44dc81a, 0x20aad899, 0x76f1a2bc, 0xdcff40fd, 0x5bace62d, 0xcc4769f2, 0xdc84bb1, 0x69bf7b95,
                 0x5cb0a9dc, 0x1c0, 0xf13ae55b, 0x966aa287);
    assert Turns(0xf13ae55b, 0xd44dc81a, 0x20aad899, 0x76f1a2bc, 0x966aa287, 0x5bace62d, 0xcc4769f2, 0xdc84bb1,
                 0x76f988da, 0x1c00501c, 0xa4195b91, 0xeddbd6ed);
    ConstantRow2();
    hide Turns, Rounds, RoundConstant;
    EightRounds(v, w, 16, Rounds(v, w, 16), 0xf16f634e, 0x23dcb6c2, 0xdcff40fd, 0x76f1a2bc, 0x20aad899, 0xd44dc81a,
                0xf13ae55b, 0xa4195b91, 0x8b21cdc1, 0xca9182d3, 0x69bf7b95, 0xdc84bb1, 0xcc4769f2, 0x5bace62d,
                0x966aa287, 0xeddbd6ed);
  }

  lemma SecondRounds24(v: Working, w: seq<bv32>)
    requires Eight(w, 24, 0x1b00000, 0x220a8d94, 0xa365, 0x177017e7, 0x63d38035, 0x90ab713, 0x4c7539ca, 0xf19a8c9)
    requires Rounds(v, w, 24)
          == Working(0xa4195b91, 0xf13ae55b, 0xd44dc81a, 0x20aad899, 0xeddbd6ed, 0x966aa287, 0x5bace62d, 0xcc4769f2)
    ensures Rounds(v, w, 32)
         == Working(0xb0eab1c5, 0x2ef3a5f, 0x1cfa5eb0, 0xd958b529, 0xf6d93952, 0x5da10665, 0x6c49db9f, 0xc2fa99b1)
  {
    assert Turns(0xa4195b91, 0xf13ae55b, 0xd44dc81a, 0x20aad899, 0xeddbd6ed, 0x966aa287, 0x5bace62d, 0xcc4769f2,
                 0x983e5152, 0x1b00000, 0x4984fa79, 0xa530d939);
    assert Turns(0x4984fa79, 0xa4195b91, 0xf13ae55b, 0xd44dc81a, 0xa530d939, 0xeddbd6ed, 0x966aa287, 0x5bace62d,
                 0xa831c66d, 0x220a8d94, 0xaa6cb982, 0xb5eeea4);
    assert Turns(0xaa6cb982, 0x4984fa79, 0xa4195b91, 0xf13ae55b, 0xb5eeea4, 0xa530d939, 0xeddbd6ed, 0x966aa287,
                 0xb00327c8, 0xa365, 0x9450fbbc, 0x9166dda);
    assert Turns(0x9450fbbc, 0xaa6cb982, 0x4984fa79, 0xa4195b91, 0x9166dda, 0xb5eeea4, 0xa530d939, 0xeddbd6ed,
                 0xbf597fc7, 0x177017e7, 0xd936bab, 0x6e495d4b);
    assert Turns(0xd936bab, 0x9450fbbc, 0xaa6cb982, 0x4984fa79, 0x6e495d4b, 0x9166dda, 0xb5eeea4, 0xa530d939,
                 0xc6e00bf3, 0x63d38035, 0xd958b529, 0xc2fa99b1);
    assert Turns(0xd958b529, 0xd936bab, 0x9450fbbc, 0xaa6cb982, 0xc2fa99b1, 0x6e495d4b, 0x9166dda, 0xb5eeea4,
                 0xd5a79147, 0x90ab713, 0x1cfa5eb0, 0x6c49db9f);
    assert Turns(0x1cfa5eb0, 0xd958b529, 0xd936bab, 0x9450fbbc, 0x6c49db9f, 0xc2fa99b1, 0x6e495d4b, 0x9166dda,
                 0x6ca6351, 0x4c7539ca, 0x2ef3a5f, 0x5da10665);
    assert Turns(0x2ef3a5f, 0x1cfa5eb0, 0xd958b529, 0xd936bab, 0x5da10665, 0x6c49db9f, 0xc2fa99b1, 0x6e495d4b,
                 0x14292967, 0xf19a8c9, 0xb0eab1c5, 0xf6d93952);
    ConstantRow3();
    hide Turns, Rounds, RoundConstant;
    EightRounds(v, w, 24, Rounds(v, w, 24), 0x4984fa79, 0xaa6cb982, 0x9450fbbc, 0xd936bab, 0xd958b529, 0x1cfa5eb0,
                0x2ef3a5f, 0xb0eab1c5, 0xa530d939, 0xb5eeea4, 0x9166dda, 0x6e495d4b, 0xc2fa99b1, 0x6c49db9f,
                0x5da10665, 0xf6d93952);
  }

  lemma SecondRounds32(v: Working, w: seq<bv32>)
    requires Eight(w, 32, 0x5df4b0c4, 0xe257036a, 0xc97bb6f1, 0xc5b46f4d, 0xf8253c4e, 0xa558d189, 0x78696285,
                   0xed07117f)
    requires Rounds(v, w, 32)
          == Working(0xb0eab1c5, 0x2ef3a5f, 0x1cfa5eb0, 0xd958b529, 0xf6d93952, 0x5da10665, 0x6c49db9f, 0xc2fa99b1)
    ensures Rounds(v, w, 40)
         == Working(0x221b8a5a, 0xadca7a96, 0xd949682b, 0x2f11c939, 0xb82c5eb, 0xc6cce4ff, 0x32d99008, 0xfed4ce1d)
  {
    assert Turns(0xb0eab1c5, 0x2ef3a5f, 0x1cfa5eb0, 0xd958b529, 0xf6d93952, 0x5da10665, 0x6c49db9f, 0xc2fa99b1,
                 0x27b70a85, 0x5df4b0c4, 0xbfba73c, 0x8b99e3a9);
    assert Turns(0xbfba73c, 0xb0eab1c5, 0x2ef3a5f, 0x1cfa5eb0, 0x8b99e3a9, 0xf6d93952, 0x5da10665, 0x6c49db9f,
                 0x2e1b2138, 0xe257036a, 0x4bd1df96, 0x905e44ac);
    assert Turns(0x4bd1df96, 0xbfba73c, 0xb0eab1c5, 0x2ef3a5f, 0x905e44ac, 0x8b99e3a9, 0xf6d93952, 0x5da10665,
                 0x4d2c6dfc, 0xc97bb6f1, 0x9907f1b6, 0x66c3043d);
    assert Turns(0x9907f1b6, 0x4bd1df96, 0xbfba73c, 0xb0eab1c5, 0x66c3043d, 0x905e44ac, 0x8b99e3a9, 0xf6d93952,
                 0x53380d13, 0xc5b46f4d, 0xecde4e0d, 0x5dc119e6);
    assert Turns(0xecde4e0d, 0x9907f1b6, 0x4bd1df96, 0xbfba73c, 0x5dc119e6, 0x66c3043d, 0x905e44ac, 0x8b99e3a9,
                 0x650a7354, 0xf8253c4e, 0x2f11c939, 0xfed4ce1d);
    assert Turns(0x2f11c939, 0xecde4e0d, 0x9907f1b6, 0x4bd1df96, 0xfed4ce1d, 0x5dc119e6, 0x66c3043d, 0x905e44ac,
                 0x766a0abb, 0xa558d189, 0xd949682b, 0x32d99008);
    assert Turns(0xd949682b, 0x2f11c939, 0xecde4e0d, 0x9907f1b6, 0x32d99008, 0xfed4ce1d, 0x5dc119e6, 0x66c3043d,
                 0x81c2c92e, 0x78696285, 0xadca7a96, 0xc6cce4ff);
    assert Turns(0xadca7a96, 0xd949682b, 0x2f11c939, 0xecde4e0d, 0xc6cce4ff, 0x32d99008, 0xfed4ce1d, 0x5dc119e6,
                 0x92722c85, 0xed07117f, 0x221b8a5a, 0xb82c5eb);
    ConstantRow4();
    hide Turns, Rounds, RoundConstant;
    EightRounds(v, w, 32, Rounds(v, w, 32), 0xbfba73c, 0x4bd1df96, 0x9907f1b6, 0xecde4e0d, 0x2f11c939, 0xd949682b,
                0xadca7a96, 0x221b8a5a, 0x8b99e3a9, 0x905e44ac, 0x66c3043d, 0x5dc119e6, 0xfed4ce1d, 0x32d99008,
                0xc6cce4ff, 0xb82c5eb);
  }

  lemma SecondRounds40(v: Working, w: seq<bv32>)
    requires Eight(w, 40, 0x107358f6, 0x390ae496, 0x565010a2, 0xc51d7d44, 0x9e74c972, 0x6614b561, 0x30fc129d,
                   0x9ac684a8)
    requires Rounds(v, w, 40)
          == Working(0x221b8a5a, 0xadca7a96, 0xd949682b, 0x2f11c939, 0xb82c5eb, 0xc6cce4ff, 0x32d99008, 0xfed4ce1d)
    ensures Rounds(v, w, 48)
         == Working(0xd7354d5b, 0xb3303a7, 0x104a7db4, 0xf154e11, 0xaad55b6b, 0xbbe1c39a, 0x5348e8f6, 0x6f9517cb)
  {
    assert Turns(0x221b8a5a, 0xadca7a96, 0xd949682b, 0x2f11c939, 0xb82c5eb, 0xc6cce4ff, 0x32d99008, 0xfed4ce1d,
                 0xa2bfe8a1, 0x107358f6, 0x12d97845, 0xe4213ca2);
    assert Turns(0x12d97845, 0x221b8a5a, 0xadca7a96, 0xd949682b, 0xe4213ca2, 0xb82c5eb, 0xc6cce4ff, 0x32d99008,
                 0xa81a664b, 0x390ae496, 0x2c794876, 0xff6759ba);
    assert Turns(0x2c794876, 0x12d97845, 0x221b8a5a, 0xadca7a96, 0xff6759ba, 0xe4213ca2, 0xb82c5eb, 0xc6cce4ff,
                 0xc24b8b70, 0x565010a2, 0x8300fca2, 0xe0e3457c);
    assert Turns(0x8300fca2, 0x2c794876, 0x12d97845, 0x221b8a5a, 0xe0e3457c, 0xff6759ba, 0xe4213ca2, 0xb82c5eb,
                 0xc76c51a3, 0xc51d7d44, 0xf2ad6322, 0xcc48c7f3);
    assert Turns(0xf2ad6322, 0x8300fca2, 0x2c794876, 0x12d97845, 0xcc48c7f3, 0xe0e3457c, 0xff6759ba, 0xe4213ca2,
                 0xd192e819, 0x9e74c972, 0xf154e11, 0x6f9517cb);
    assert Turns(0xf154e11, 0xf2ad6322, 0x8300fca2, 0x2c794876, 0x6f9517cb, 0xcc48c7f3, 0xe0e3457c, 0xff6759ba,
                 0xd6990624, 0x6614b561, 0x104a7db4, 0x5348e8f6);
    assert Turns(0x104a7db4, 0xf154e11, 0xf2ad6322, 0x8300fca2, 0x5348e8f6, 0x6f9517cb, 0xcc48c7f3, 0xe0e3457c,
                 0xf40e3585, 0x30fc129d, 0xb3303a7, 0xbbe1c39a);
    assert Turns(0xb3303a7, 0x104a7db4, 0xf154e11, 0xf2ad6322, 0xbbe1c39a, 0x5348e8f6, 0x6f9517cb, 0xcc48c7f3,
                 0x106aa070, 0x9ac684a8, 0xd7354d5b, 0xaad55b6b);
    ConstantRow5();
    hide Turns, Rounds, RoundConstant;
    EightRounds(v, w, 40, Rounds(v, w, 40), 0x12d97845, 0x2c794876, 0x8300fca2, 0xf2ad6322, 0xf154e11, 0x104a7db4,
                0xb3303a7, 0xd7354d5b, 0xe4213ca2, 0xff6759ba, 0xe0e3457c, 0xcc48c7f3, 0x6f9517cb, 0x5348e8f6,
                0xbbe1c39a, 0xaad55b6b);
  }

  lemma SecondRounds48(v: Working, w: seq<bv32>)
    requires Eight(w, 48, 0x2b658dbd, 0xe290f793, 0x9eebb24c, 0x9713b5de, 0x41061ab7, 0xe022e23b, 0x772079e,
                   0x7de22d9c)
    requires Rounds(v, w, 48)
          == Working(0xd7354d5b, 0xb3303a7, 0x104a7db4, 0xf154e11, 0xaad55b6b, 0xbbe1c39a, 0x5348e8f6, 0x6f9517cb)
    ensures Rounds(v, w, 56)
         == Working(0x92952710, 0xd9f0c115, 0xec02560a, 0x4eca6fa0, 0x226806d6, 0x624150c4, 0x7151df8e, 0x989ed071)
  {
    assert Turns(0xd7354d5b, 0xb3303a7, 0x104a7db4, 0xf154e11, 0xaad55b6b, 0xbbe1c39a, 0x5348e8f6, 0x6f9517cb,
                 0x19a4c116, 0x2b658dbd, 0xb736d7a6, 0x68f25260);
    assert Turns(0xb736d7a6, 0xd7354d5b, 0xb3303a7, 0x104a7db4, 0x68f25260, 0xaad55b6b, 0xbbe1c39a, 0x5348e8f6,
                 0x1e376c08, 0xe290f793, 0x2748e5ec, 0xd4b58576);
    assert Turns(0x2748e5ec, 0xb736d7a6, 0xd7354d5b, 0xb3303a7, 0xd4b58576, 0x68f25260, 0xaad55b6b, 0xbbe1c39a,
                 0x2748774c, 0x9eebb24c, 0xd8aabcf9, 0x27844711);
    assert Turns(0xd8aabcf9, 0x2748e5ec, 0xb736d7a6, 0xd7354d5b, 0x27844711, 0xd4b58576, 0x68f25260, 0xaad55b6b,
                 0x34b0bcb5, 0x9713b5de, 0x1a6bcf6a, 0xff5e99d0);
    assert Turns(0x1a6bcf6a, 0xd8aabcf9, 0x2748e5ec, 0xb736d7a6, 0xff5e99d0, 0x27844711, 0xd4b58576, 0x68f25260,
                 0x391c0cb3, 0x41061ab7, 0x4eca6fa0, 0x989ed071);
    assert Turns(0x4eca6fa0, 0x1a6bcf6a, 0xd8aabcf9, 0x2748e5ec, 0x989ed071, 0xff5e99d0, 0x27844711, 0xd4b58576,
                 0x4ed8aa4a, 0xe022e23b, 0xec02560a, 0x7151df8e);
    assert Turns(0xec02560a, 0x4eca6fa0, 0x1a6bcf6a, 0xd8aabcf9, 0x7151df8e, 0x989ed071, 0xff5e99d0, 0x27844711,
                 0x5b9cca4f, 0x772079e, 0xd9f0c115, 0x624150c4);
    assert Turns(0xd9f0c115, 0xec02560a, 0x4eca6fa0, 0x1a6bcf6a, 0x624150c4, 0x7151df8e, 0x989ed071, 0xff5e99d0,
                 0x682e6ff3, 0x7de22d9c, 0x92952710, 0x226806d6);
    ConstantRow6();
    hide Turns, Rounds, RoundConstant;
    EightRounds(v, w, 48, Rounds(v, w, 48), 0xb736d7a6, 0x2748e5ec, 0xd8aabcf9, 0x1a6bcf6a, 0x4eca6fa0, 0xec02560a,
                0xd9f0c115, 0x92952710, 0x68f25260, 0xd4b58576, 0x27844711, 0xff5e99d0, 0x989ed071, 0x7151df8e,
                0x624150c4, 0x226806d6);
  }

  lemma SecondRounds56(v: Working, w: seq<bv32>)
    requires Eight(w, 56, 0xc8b83778, 0x75a79849, 0xd93dbddb, 0xa036c9d, 0xcb4f6ac6, 0x823f97e2, 0xea2f2a7a,
                   0xb9018b52)
    requires Rounds(v, w, 56)
          == Working(0x92952710, 0xd9f0c115, 0xec02560a, 0x4eca6fa0, 0x226806d6, 0x624150c4, 0x7151df8e, 0x989ed071)
    ensures Rounds(v, w, 64)
         == Working(0x9ea7148b, 0x908c2123, 0xb25cef29, 0xa9f181dd, 0x2c5c4ed0, 0x9a392956, 0x2aa1bb13, 0x27ccb387)
  {
    assert Turns(0x92952710, 0xd9f0c115, 0xec02560a, 0x4eca6fa0, 0x226806d6, 0x624150c4, 0x7151df8e, 0x989ed071,
                 0x748f82ee, 0xc8b83778, 0x20d4d0e4, 0x4e515a4d);
    assert Turns(0x20d4d0e4, 0x92952710, 0xd9f0c115, 0xec02560a, 0x4e515a4d, 0x226806d6, 0x624150c4, 0x7151df8e,
                 0x78a5636f, 0x75a79849, 0x4348eb1f, 0xc21eddf9);
    assert Turns(0x4348eb1f, 0x20d4d0e4, 0x92952710, 0xd9f0c115, 0xc21eddf9, 0x4e515a4d, 0x226806d6, 0x624150c4,
                 0x84c87814, 0xd93dbddb, 0x286fe5f0, 0x54076664);
    assert Turns(0x286fe5f0, 0x4348eb1f, 0x20d4d0e4, 0x92952710, 0x54076664, 0xc21eddf9, 0x4e515a4d, 0x226806d6,
                 0x8cc70208, 0xa036c9d, 0x1c4cddd9, 0xf487a853);
    assert Turns(0x1c4cddd9, 0x286fe5f0, 0x4348eb1f, 0x20d4d0e4, 0xf487a853, 0x54076664, 0xc21eddf9, 0x4e515a4d,
                 0x90befffa, 0xcb4f6ac6, 0xa9f181dd, 0x27ccb387);
    assert Turns(0xa9f181dd, 0x1c4cddd9, 0x286fe5f0, 0x4348eb1f, 0x27ccb387, 0xf487a853, 0x54076664, 0xc21eddf9,
                 0xa4506ceb, 0x823f97e2, 0xb25cef29, 0x2aa1bb13);
    assert Turns(0xb25cef29, 0xa9f181dd, 0x1c4cddd9, 0x286fe5f0, 0x2aa1bb13, 0x27ccb387, 0xf487a853, 0x54076664,
                 0xbef9a3f7, 0xea2f2a7a, 0x908c2123, 0x9a392956);
    assert Turns(0x908c2123, 0xb25cef29, 0xa9f181dd, 0x1c4cddd9, 0x9a392956, 0x2aa1bb13, 0x27ccb387, 0xf487a853,
                 0xc67178f2, 0xb9018b52, 0x9ea7148b, 0x2c5c4ed0);
    ConstantRow7();
    hide Turns, Rounds, RoundConstant;
    EightRounds(v, w, 56, Rounds(v, w, 56), 0x20d4d0e4, 0x4348eb1f, 0x286fe5f0, 0x1c4cddd9, 0xa9f181dd, 0xb25cef29,
                0x908c2123, 0x9ea7148b, 0x4e515a4d, 0xc21eddf9, 0x54076664, 0xf487a853, 0x27ccb387, 0x2aa1bb13,
                0x9a392956, 0x2c5c4ed0);
  }

  lemma SecondCompression(h: HashValue, b: Block, w: seq<bv32>)
    requires w == Schedule(b, 64)
    requires h == [0x85e655d6, 0x417a1795, 0x3363376a, 0x624cde5c, 0x76e09589, 0xcac5f811, 0xcc4b32c1, 0xf20e533a]
    requires Eight(w, 0, 0, 0, 0, 0, 0, 0, 0, 0)
    requires Eight(w, 8, 0, 0, 0, 0, 0, 0, 0, 0x1c0)
    ensures Compress(h, b)
         == [0x248d6a61, 0xd20638b8, 0xe5c02693, 0xc3e6039, 0xa33ce459, 0x64ff2167, 0xf6ecedd4, 0x19db06c1]
  {
    assert Sum(0x85e655d6, 0x9ea7148b) == 0x248d6a61;
    assert Sum(0x417a1795, 0x908c2123) == 0xd20638b8;
    assert Sum(0x3363376a, 0xb25cef29) == 0xe5c02693;
    assert Sum(0x624cde5c, 0xa9f181dd) == 0xc3e6039;
    assert Sum(0x76e09589, 0x2c5c4ed0) == 0xa33ce459;
    assert Sum(0xcac5f811, 0x9a392956) == 0x64ff2167;
    assert Sum(0xcc4b32c1, 0x2aa1bb13) == 0xf6ecedd4;
    assert Sum(0xf20e533a, 0x27ccb387) == 0x19db06c1;
    var v := FromHash(h);
    RoundsStep(v, w, 0);
    hide Rounds, Schedule, Sum;
    assert v == Working(0x85e655d6, 0x417a1795, 0x3363376a, 0x624cde5c, 0x76e09589, 0xcac5f811, 0xcc4b32c1, 0xf20e533a);
    SecondWords16(b, w);
    SecondWords24(b, w);
    SecondWords32(b, w);
    SecondWords40(b, w);
    SecondWords48(b, w);
    SecondWords56(b, w);
    hide Eight;
    SecondRounds0(v, w);
    SecondRounds8(v, w);
    SecondRounds16(v, w);
    SecondRounds24(v, w);
    SecondRounds32(v, w);
    SecondRounds40(v, w);
    SecondRounds48(v, w);
    SecondRounds56(v, w);
    AddsTo(h, Rounds(v, w, 64), Compress(h, b));
  }

  // -------------------------------------------------------------------------
  // The two messages, their blocks and their digests
  // -------------------------------------------------------------------------

  lemma {:induction false} ZeroAt(n: nat, i: nat)
    requires i < n
    ensures Zeros(n)[i] == 0
  {
    if i + 1 < n {
      ZeroAt(n - 1, i);
    }
  }

  /** What stands where in a padded message. */
  lemma PaddedAt(m: seq<byte>, z: nat)
    requires z == ZeroCount(|m|)
    ensures var p, n := Pad(m), |m|;
      && |p| == n + z + 9
      && p[..n] == m && p[n] == 0x80
      && (forall i :: n < i <= n + z ==> p[i] == 0)
      && p[n + z + 1..] == LengthField(n)
  {
    hide Zeros, LengthField, ZeroCount;
    var p, n := Pad(m), |m|;
    forall i | n < i <= n + z ensures p[i] == 0 {
      ZeroAt(z, i - n - 1);
    }
    assert p[n + z + 1..] == LengthField(n);
  }

  /** The word of four bytes, most significant first. */
  predicate Spells(w: bv32, b0: byte, b1: byte, b2: byte, b3: byte) {
    w as int == ((b0 * 256 + b1) * 256 + b2) * 256 + b3
  }

  lemma ReadsWord(b: Block, t: nat, w: bv32)
    requires t < 16 && Spells(w, b[4 * t], b[4 * t + 1], b[4 * t + 2], b[4 * t + 3])
    ensures Schedule(b, 64)[t] == w
  {
    hide Schedule;
    FirstWords(b);
  }

  lemma WritesWord(w: bv32, b0: byte, b1: byte, b2: byte, b3: byte)
    requires Spells(w, b0, b1, b2, b3)
    ensures BytesOf(w) == [b0, b1, b2, b3]
  {
    hide BigEndian;
    FourBytes(w as nat, b0, b1, b2, b3);
  }

  lemma FourBytes(n: nat, b0: byte, b1: byte, b2: byte, b3: byte)
    requires n == ((b0 * 256 + b1) * 256 + b2) * 256 + b3
    ensures BigEndian(n, 4) == [b0, b1, b2, b3]
  {
    hide BigEndian;
    NoBytes();
    OneByte(0, b0, 0);
    OneByte(b0, b1, 1);
    OneByte(b0 * 256 + b1, b2, 2);
    OneByte((b0 * 256 + b1) * 256 + b2, b3, 3);
  }

  lemma NoBytes()
    ensures BigEndian(0, 0) == []
  {
  }

  lemma OneByte(n: nat, b: byte, k: nat)
    ensures BigEndian(n * 256 + b, k + 1) == BigEndian(n, k) + [b]
  {
    Multiples.Quotient(n, 256, b);
    assert (n * 256 + b) / 256 == n && (n * 256 + b) % 256 == b;
  }

  /** Four letters in a row, as the long message has them. */
  lemma ReadsLetters(b: Block, t: nat, w: bv32)
    requires t < 14 && forall i :: 0 <= i < 56 ==> b[i] == 0x61 + i / 4 + i % 4
    requires Spells(w, 0x61 + t, 0x62 + t, 0x63 + t, 0x64 + t)
    ensures Schedule(b, 64)[t] == w
  {
    hide Spells, Schedule;
    assert b[4 * t] == 0x61 + t && b[4 * t + 1] == 0x62 + t;
    assert b[4 * t + 2] == 0x63 + t && b[4 * t + 3] == 0x64 + t;
    ReadsWord(b, t, w);
  }

  lemma AbcBlock(b: Block, w: seq<bv32>)
    requires w == Schedule(b, 64)
    requires b[0] == 0x61 && b[1] == 0x62 && b[2] == 0x63 && b[3] == 0x80
    requires forall i :: 4 <= i < 63 ==> b[i] == 0
    requires b[63] == 24
    ensures Eight(w, 0, 0x61626380, 0, 0, 0, 0, 0, 0, 0)
    ensures Eight(w, 8, 0, 0, 0, 0, 0, 0, 0, 0x18)
  {
    assert Spells(0x61626380, 0x61, 0x62, 0x63, 0x80);
    assert Spells(0, 0, 0, 0, 0);
    assert Spells(0x18, 0, 0, 0, 0x18);
    hide Spells, Schedule;
    ReadsWord(b, 0, 0x61626380);
    ReadsWord(b, 1, 0);
    ReadsWord(b, 2, 0);
    ReadsWord(b, 3, 0);
    ReadsWord(b, 4, 0);
    ReadsWord(b, 5, 0);
    ReadsWord(b, 6, 0);
    ReadsWord(b, 7, 0);
    ReadsWord(b, 8, 0);
    ReadsWord(b, 9, 0);
    ReadsWord(b, 10, 0);
    ReadsWord(b, 11, 0);
    ReadsWord(b, 12, 0);
    ReadsWord(b, 13, 0);
    ReadsWord(b, 14, 0);
    ReadsWord(b, 15, 0x18);
  }

  lemma FirstBlock(b: Block, w: seq<bv32>)
    requires w == Schedule(b, 64)
    requires forall i :: 0 <= i < 56 ==> b[i] == 0x61 + i / 4 + i % 4
    requires b[56] == 0x80 && forall i :: 57 <= i < 64 ==> b[i] == 0
    ensures Eight(w, 0, 0x61626364, 0x62636465, 0x63646566, 0x64656667, 0x65666768, 0x66676869, 0x6768696a, 0x68696a6b)
    ensures Eight(w, 8, 0x696a6b6c, 0x6a6b6c6d, 0x6b6c6d6e, 0x6c6d6e6f, 0x6d6e6f70, 0x6e6f7071, 0x80000000, 0)
  {
    assert Spells(0x61626364, 0x61, 0x62, 0x63, 0x64);
    assert Spells(0x62636465, 0x62, 0x63, 0x64, 0x65);
    assert Spells(0x63646566, 0x63, 0x64, 0x65, 0x66);
    assert Spells(0x64656667, 0x64, 0x65, 0x66, 0x67);
    assert Spells(0x65666768, 0x65, 0x66, 0x67, 0x68);
    assert Spells(0x66676869, 0x66, 0x67, 0x68, 0x69);
    assert Spells(0x6768696a, 0x67, 0x68, 0x69, 0x6a);
    assert Spells(0x68696a6b, 0x68, 0x69, 0x6a, 0x6b);
    assert Spells(0x696a6b6c, 0x69, 0x6a, 0x6b, 0x6c);
    assert Spells(0x6a6b6c6d, 0x6a, 0x6b, 0x6c, 0x6d);
    assert Spells(0x6b6c6d6e, 0x6b, 0x6c, 0x6d, 0x6e);
    assert Spells(0x6c6d6e6f, 0x6c, 0x6d, 0x6e, 0x6f);
    assert Spells(0x6d6e6f70, 0x6d, 0x6e, 0x6f, 0x70);
    assert Spells(0x6e6f7071, 0x6e, 0x6f, 0x70, 0x71);
    assert Spells(0x80000000, 0x80, 0, 0, 0);
    assert Spells(0, 0, 0, 0, 0);
    hide Spells, Schedule;
    ReadsLetters(b, 0, 0x61626364);
    ReadsLetters(b, 1, 0x62636465);
    ReadsLetters(b, 2, 0x63646566);
    ReadsLetters(b, 3, 0x64656667);
    ReadsLetters(b, 4, 0x65666768);
    ReadsLetters(b, 5, 0x66676869);
    ReadsLetters(b, 6, 0x6768696a);
    ReadsLetters(b, 7, 0x68696a6b);
    ReadsLetters(b, 8, 0x696a6b6c);
    ReadsLetters(b, 9, 0x6a6b6c6d);
    ReadsLetters(b, 10, 0x6b6c6d6e);
    ReadsLetters(b, 11, 0x6c6d6e6f);
    ReadsLetters(b, 12, 0x6d6e6f70);
    ReadsLetters(b, 13, 0x6e6f7071);
    ReadsWord(b, 14, 0x80000000);
    ReadsWord(b, 15, 0);
  }

  lemma SecondBlock(b: Block, w: seq<bv32>)
    requires w == Schedule(b, 64)
    requires forall i :: 0 <= i < 62 ==> b[i] == 0
    requires b[62] == 1 && b[63] == 0xc0
    ensures Eight(w, 0, 0, 0, 0, 0, 0, 0, 0, 0)
    ensures Eight(w, 8, 0, 0, 0, 0, 0, 0, 0, 0x1c0)
  {
    assert Spells(0, 0, 0, 0, 0);
    assert Spells(0x1c0, 0, 0, 0x1, 0xc0);
    hide Spells, Schedule;
    ReadsWord(b, 0, 0);
    ReadsWord(b, 1, 0);
    ReadsWord(b, 2, 0);
    ReadsWord(b, 3, 0);
    ReadsWord(b, 4, 0);
    ReadsWord(b, 5, 0);
    ReadsWord(b, 6, 0);
    ReadsWord(b, 7, 0);
    ReadsWord(b, 8, 0);
    ReadsWord(b, 9, 0);
    ReadsWord(b, 10, 0);
    ReadsWord(b, 11, 0);
    ReadsWord(b, 12, 0);
    ReadsWord(b, 13, 0);
    ReadsWord(b, 14, 0);
    ReadsWord(b, 15, 0x1c0);
  }

  /** "abcdbcdecdefdefgefghfghighijhijkijkljklmklmnlmnomnopnopq" */
  function LongMessage(): (m: seq<byte>)
    ensures |m| == 56
  {
    seq(56, i requires 0 <= i < 56 => 0x61 + i / 4 + i % 4)
  }

  lemma ShortLength()
    ensures LengthField(3) == [0, 0, 0, 0, 0, 0, 0, 24]
  {
  }

  lemma LongLength()
    ensures LengthField(56) == [0, 0, 0, 0, 0, 0, 1, 0xc0]
  {
    assert BigEndian(0, 6) == [0, 0, 0, 0, 0, 0];
    hide BigEndian;
    OneByte(0, 1, 6);
    OneByte(1, 0xc0, 7);
  }

  lemma OneBlock(p: seq<byte>)
    requires |p| == 64
    ensures HashBlocks(p) == Compress(InitialHash(), p)
  {
    hide Compress;
    assert p[..0] == [] && p[0..] == p;
  }

  lemma TwoBlocks(b: Block, c: Block)
    ensures HashBlocks(b + c) == Compress(Compress(InitialHash(), b), c)
  {
    hide Compress, InitialHash;
    OneBlock(b);
    assert (b + c)[..64] == b && (b + c)[64..] == c;
  }

  lemma SerializeOneMore(h: seq<bv32>, w: bv32)
    ensures Serialize(h + [w]) == Serialize(h) + BytesOf(w)
  {
    hide BytesOf;
    assert (h + [w])[..|h|] == h;
  }

  lemma SerializeHash(h: HashValue)
    ensures Serialize(h) == BytesOf(h[0]) + BytesOf(h[1]) + BytesOf(h[2]) + BytesOf(h[3])
                            + BytesOf(h[4]) + BytesOf(h[5]) + BytesOf(h[6]) + BytesOf(h[7])
  {
    assert Serialize([]) == [];
    hide Serialize, BytesOf;
    forall k | 0 <= k < 8 ensures Serialize(h[..k + 1]) == Serialize(h[..k]) + BytesOf(h[k]) {
      assert h[..k + 1] == h[..k] + [h[k]];
      SerializeOneMore(h[..k], h[k]);
    }
    assert h[..0] == [] && h[..8] == h;
    assert Serialize(h[..2]) == BytesOf(h[0]) + BytesOf(h[1]);
    assert Serialize(h[..4]) == BytesOf(h[0]) + BytesOf(h[1]) + BytesOf(h[2]) + BytesOf(h[3]);
  }

  lemma DigestOfAbcBytes(h: HashValue)
    requires h == [0xba7816bf, 0x8f01cfea, 0x414140de, 0x5dae2223, 0xb00361a3, 0x96177a9c, 0xb410ff61, 0xf20015ad]
    ensures Serialize(h) == [0xba, 0x78, 0x16, 0xbf] + [0x8f, 0x01, 0xcf, 0xea]
                          + [0x41, 0x41, 0x40, 0xde] + [0x5d, 0xae, 0x22, 0x23]
                          + [0xb0, 0x03, 0x61, 0xa3] + [0x96, 0x17, 0x7a, 0x9c]
                          + [0xb4, 0x10, 0xff, 0x61] + [0xf2, 0x00, 0x15, 0xad]
  {
    assert Spells(0xba7816bf, 0xba, 0x78, 0x16, 0xbf);
    assert Spells(0x8f01cfea, 0x8f, 0x01, 0xcf, 0xea);
    assert Spells(0x414140de, 0x41, 0x41, 0x40, 0xde);
    assert Spells(0x5dae2223, 0x5d, 0xae, 0x22, 0x23);
    assert Spells(0xb00361a3, 0xb0, 0x03, 0x61, 0xa3);
    assert Spells(0x96177a9c, 0x96, 0x17, 0x7a, 0x9c);
    assert Spells(0xb410ff61, 0xb4, 0x10, 0xff, 0x61);
    assert Spells(0xf20015ad, 0xf2, 0x00, 0x15, 0xad);
    hide Spells, Serialize, BytesOf;
    WritesWord(0xba7816bf, 0xba, 0x78, 0x16, 0xbf);
    WritesWord(0x8f01cfea, 0x8f, 0x01, 0xcf, 0xea);
    WritesWord(0x414140de, 0x41, 0x41, 0x40, 0xde);
    WritesWord(0x5dae2223, 0x5d, 0xae, 0x22, 0x23);
    WritesWord(0xb00361a3, 0xb0, 0x03, 0x61, 0xa3);
    WritesWord(0x96177a9c, 0x96, 0x17, 0x7a, 0x9c);
    WritesWord(0xb410ff61, 0xb4, 0x10, 0xff, 0x61);
    WritesWord(0xf20015ad, 0xf2, 0x00, 0x15, 0xad);
    SerializeHash(h);
  }

  /** The first example: the digest of "abc". */
  lemma DigestOfAbc()
    ensures Digest([0x61, 0x62, 0x63])
         == [0xba, 0x78, 0x16, 0xbf] + [0x8f, 0x01, 0xcf, 0xea]
          + [0x41, 0x41, 0x40, 0xde] + [0x5d, 0xae, 0x22, 0x23]
          + [0xb0, 0x03, 0x61, 0xa3] + [0x96, 0x17, 0x7a, 0x9c]
          + [0xb4, 0x10, 0xff, 0x61] + [0xf2, 0x00, 0x15, 0xad]
  {
    hide Serialize, Compress, Schedule, Pad, HashBlocks, Eight;
    var m: seq<byte> := [0x61, 0x62, 0x63];
    var p := Pad(m);
    AbcPadding(m, p);
    AbcBlock(p, Schedule(p, 64));
    OneBlock(p);
    AbcCompression(InitialHash(), p, Schedule(p, 64));
    DigestOfAbcBytes(HashBlocks(p));
  }

  lemma DigestOfTwoBlocksBytes(h: HashValue)
    requires h == [0x248d6a61, 0xd20638b8, 0xe5c02693, 0xc3e6039, 0xa33ce459, 0x64ff2167, 0xf6ecedd4, 0x19db06c1]
    ensures Serialize(h) == [0x24, 0x8d, 0x6a, 0x61] + [0xd2, 0x06, 0x38, 0xb8]
                          + [0xe5, 0xc0, 0x26, 0x93] + [0x0c, 0x3e, 0x60, 0x39]
                          + [0xa3, 0x3c, 0xe4, 0x59] + [0x64, 0xff, 0x21, 0x67]
                          + [0xf6, 0xec, 0xed, 0xd4] + [0x19, 0xdb, 0x06, 0xc1]
  {
    assert Spells(0x248d6a61, 0x24, 0x8d, 0x6a, 0x61);
    assert Spells(0xd20638b8, 0xd2, 0x06, 0x38, 0xb8);
    assert Spells(0xe5c02693, 0xe5, 0xc0, 0x26, 0x93);
    assert Spells(0xc3e6039, 0x0c, 0x3e, 0x60, 0x39);
    assert Spells(0xa33ce459, 0xa3, 0x3c, 0xe4, 0x59);
    assert Spells(0x64ff2167, 0x64, 0xff, 0x21, 0x67);
    assert Spells(0xf6ecedd4, 0xf6, 0xec, 0xed, 0xd4);
    assert Spells(0x19db06c1, 0x19, 0xdb, 0x06, 0xc1);
    hide Spells, Serialize, BytesOf;
    WritesWord(0x248d6a61, 0x24, 0x8d, 0x6a, 0x61);
    WritesWord(0xd20638b8, 0xd2, 0x06, 0x38, 0xb8);
    WritesWord(0xe5c02693, 0xe5, 0xc0, 0x26, 0x93);
    WritesWord(0xc3e6039, 0x0c, 0x3e, 0x60, 0x39);
    WritesWord(0xa33ce459, 0xa3, 0x3c, 0xe4, 0x59);
    WritesWord(0x64ff2167, 0x64, 0xff, 0x21, 0x67);
    WritesWord(0xf6ecedd4, 0xf6, 0xec, 0xed, 0xd4);
    WritesWord(0x19db06c1, 0x19, 0xdb, 0x06, 0xc1);
    SerializeHash(h);
  }

  /** The second example: a message of two blocks. */
  lemma DigestOfTwoBlocks()
    ensures Digest(LongMessage())
         == [0x24, 0x8d, 0x6a, 0x61] + [0xd2, 0x06, 0x38, 0xb8]
          + [0xe5, 0xc0, 0x26, 0x93] + [0x0c, 0x3e, 0x60, 0x39]
          + [0xa3, 0x3c, 0xe4, 0x59] + [0x64, 0xff, 0x21, 0x67]
          + [0xf6, 0xec, 0xed, 0xd4] + [0x19, 0xdb, 0x06, 0xc1]
  {
    hide Serialize, Compress, Schedule, Pad, HashBlocks, Eight;
    var p := Pad(LongMessage());
    LongPadding(p);
    hide LongMessage;
    var b: Block, c: Block := p[..64], p[64..];
    assert p == b + c;
    FirstBlock(b, Schedule(b, 64));
    SecondBlock(c, Schedule(c, 64));
    TwoBlocks(b, c);
    FirstCompression(InitialHash(), b, Schedule(b, 64));
    SecondCompression(Compress(InitialHash(), b), c, Schedule(c, 64));
    DigestOfTwoBlocksBytes(HashBlocks(p));
  }

  lemma AbcPadding(m: seq<byte>, p: seq<byte>)
    requires m == [0x61, 0x62, 0x63] && p == Pad(m)
    ensures |p| == 64 && p[0] == 0x61 && p[1] == 0x62 && p[2] == 0x63 && p[3] == 0x80
    ensures (forall i :: 4 <= i < 63 ==> p[i] == 0) && p[63] == 24
  {
    assert ZeroCount(3) == 52;
    hide Pad, ZeroCount, LengthField;
    ShortLength();
    PaddedAt(m, 52);
    assert p[..3] == m;
    assert forall i :: 56 <= i < 64 ==> p[i] == p[56..][i - 56];
  }

  lemma LongPadding(p: seq<byte>)
    requires p == Pad(LongMessage())
    ensures |p| == 128 && p[56] == 0x80 && forall i :: 0 <= i < 56 ==> p[i] == 0x61 + i / 4 + i % 4
    ensures forall i :: 57 <= i < 126 ==> p[i] == 0
    ensures p[126] == 1 && p[127] == 0xc0
  {
    assert ZeroCount(56) == 63;
    hide Pad, ZeroCount, LengthField;
    LongLength();
    PaddedAt(LongMessage(), 63);
    assert forall i :: 0 <= i < 56 ==> p[i] == p[..56][i];
    assert forall i :: 120 <= i < 128 ==> p[i] == p[120..][i - 120];
  }
}
