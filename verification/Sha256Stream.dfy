/** The streaming hash object: any division of a message into updates gives the digest of the whole. */
module Sha256Stream {
  import opened Words
  import opened JsonText
  import opened Sha256

  // -------------------------------------------------------------------------
  // Whole blocks and what is left over
  // -------------------------------------------------------------------------

  /** The bytes of the message that do not fill a block yet. */
  function Pending(m: seq<byte>): (r: seq<byte>)
    ensures |r| == |m| % 64
  {
    m[|m| - |m| % 64..]
  }

  function WholeBlocks(m: seq<byte>): (w: seq<byte>)
    ensures |w| % 64 == 0
  {
    m[..|m| - |m| % 64]
  }

  lemma FillsBlock(m: seq<byte>, chunk: seq<byte>)
    requires |m| % 64 + |chunk| == 64
    ensures |m + chunk| % 64 == 0
    ensures HashBlocks(WholeBlocks(m + chunk)) == Compress(HashBlocks(WholeBlocks(m)), Pending(m) + chunk)
  {
    hide Compress, HashBlocks;
    WholeAndPending(m, chunk);
    OneBlockMore(WholeBlocks(m), Pending(m) + chunk);
  }

  lemma WholeAndPending(m: seq<byte>, chunk: seq<byte>)
    requires |m| % 64 + |chunk| == 64
    ensures |m + chunk| % 64 == 0 && WholeBlocks(m + chunk) == WholeBlocks(m) + (Pending(m) + chunk)
  {
    var rest := |m| % 64;
    assert |m + chunk| == |m| - rest + 64;
    assert m == m[..|m| - rest] + m[|m| - rest..];
  }

  lemma OneBlockMore(blocks: seq<byte>, last: Block)
    requires |blocks| % 64 == 0
    ensures HashBlocks(blocks + last) == Compress(HashBlocks(blocks), last)
  {
    hide Compress;
    var all := blocks + last;
    assert all[..|all| - 64] == blocks && all[|all| - 64..] == last;
  }

  lemma KeepsFilling(m: seq<byte>, chunk: seq<byte>)
    requires |m| % 64 + |chunk| < 64
    ensures WholeBlocks(m + chunk) == WholeBlocks(m) && Pending(m + chunk) == Pending(m) + chunk
  {
    assert |m + chunk| % 64 == |m| % 64 + |chunk|;
  }

  lemma EmptyMessage()
    ensures HashBlocks(WholeBlocks([])) == InitialHash() && Pending([]) == []
  {
  }

  lemma Associative(a: seq<byte>, b: seq<byte>, c: seq<byte>)
    ensures a + (b + c) == a + b + c
  {
  }

  // -------------------------------------------------------------------------
  // The object
  // -------------------------------------------------------------------------

  class Hasher {
    const state: array<bv32>
    const buffer: array<byte>
    var bitLength: u64
    var bufferLen: nat
    var finalized: bool
    ghost var message: seq<byte>

    ghost predicate Shaped()
      reads this
    {
      state.Length == 8 && buffer.Length == 64 && bufferLen < 64
    }

    /** Whole blocks are compressed into the state; the rest waits in the buffer. */
    ghost predicate Absorbed(m: seq<byte>)
      reads this, state, buffer
    {
      && Shaped()
      && bufferLen == |m| % 64
      && buffer[..bufferLen] == Pending(m)
      && state[..] == HashBlocks(WholeBlocks(m))
    }

    ghost predicate Valid()
      reads this, state, buffer
    {
      && Shaped()
      && if finalized then state[..] == HashBlocks(Pad(message))
         else Absorbed(message) && bitLength == |message| * 8 % U64_LIMIT
    }

    constructor ()
      ensures Valid() && !finalized && message == []
      ensures fresh(state) && fresh(buffer)
    {
      hide HashBlocks, Pad, InitialHash, WholeBlocks, Pending;
      state := new bv32[8](i requires 0 <= i < 8 => InitialHash()[i]);
      buffer := new byte[64](i => 0);
      bitLength, bufferLen, finalized, message := 0, 0, false, [];
      new;
      EmptyMessage();
      assert state[..] == InitialHash();
    }

    method Transform()
      requires state.Length == 8 && buffer.Length == 64
      modifies state
      ensures state[..] == Compress(old(state[..]), buffer[..])
    {
      hide RoundConstant, Round, Rounds, Schedule, Sum;
      ghost var before: HashValue := state[..];
      var w := ExpandMessage();
      var v := Working(state[0], state[1], state[2], state[3], state[4], state[5], state[6], state[7]);
      RoundsStep(v, w, 0);
      for i := 0 to 64
        invariant state[..] == before
        invariant v == Rounds(FromHash(before), w, i)
      {
        RoundsStep(FromHash(before), w, i);
        v := Round(v, RoundConstant(i), w[i]);
      }
      Accumulate(v);
    }

    method Accumulate(v: Working)
      requires state.Length == 8
      modifies state
      ensures state[..] == AddBack(old(state[..]), v)
    {
      hide Sum;
      var parts := [v.a, v.b, v.c, v.d, v.e, v.f, v.g, v.h];
      for i := 0 to 8
        invariant forall k :: 0 <= k < i ==> state[k] == Sum(old(state[k]), parts[k])
        invariant forall k :: i <= k < 8 ==> state[k] == old(state[k])
      {
        state[i] := Sum(state[i], parts[i]);
      }
    }

    method ExpandMessage() returns (w: seq<bv32>)
      requires buffer.Length == 64
      ensures w == Schedule(buffer[..], 64)
    {
      hide NextWord, Schedule;
      ScheduleSteps(buffer[..], 0);
      w := [];
      for i := 0 to 64
        invariant w == Schedule(buffer[..], i)
      {
        ScheduleSteps(buffer[..], i);
        w := w + [NextWord(buffer[..], w)];
      }
    }

    /** Copies a chunk that fits into the buffer, and compresses the buffer when that fills it. */
    method AbsorbChunk(chunk: seq<byte>, ghost m: seq<byte>)
      requires Absorbed(m) && bufferLen + |chunk| <= 64
      modifies this`bufferLen, state, buffer
      ensures Absorbed(m + chunk)
    {
      hide HashBlocks, Compress, Pending, WholeBlocks;
      forall k | 0 <= k < |chunk| {
        buffer[bufferLen + k] := chunk[k];
      }
      assert buffer[..bufferLen + |chunk|] == Pending(m) + chunk;
      bufferLen := bufferLen + |chunk|;
      if bufferLen == 64 {
        FillsBlock(m, chunk);
        assert buffer[..] == Pending(m) + chunk;
        assert state[..] == HashBlocks(WholeBlocks(m));
        Transform();
        assert state[..] == HashBlocks(WholeBlocks(m + chunk));
        bufferLen := 0;
        assert buffer[..0] == Pending(m + chunk);
      } else {
        KeepsFilling(m, chunk);
      }
    }

    static lemma LongerPrefix(m: seq<byte>, data: seq<byte>, i: nat, take: nat)
      requires i + take <= |data|
      ensures m + data[..i] + data[i..i + take] == m + data[..i + take]
    {
    }

    static lemma LengthCounts(n: nat, k: nat)
      ensures (n * 8 % U64_LIMIT + k * 8) % U64_LIMIT == (n + k) * 8 % U64_LIMIT
    {
    }

    method Update(data: seq<byte>)
      requires Valid()
      modifies this, state, buffer
      ensures Valid() && finalized == old(finalized)
      ensures message == if finalized then old(message) else old(message) + data
      ensures finalized ==> state[..] == old(state[..])
    {
      hide HashBlocks, Pad, Pending, WholeBlocks;
      if finalized {
        return;
      }
      bitLength := (bitLength + |data| * 8) % U64_LIMIT;
      var i := 0;
      ghost var absorbed := message;
      assert message + data[..0] == message;
      while i < |data|
        invariant 0 <= i <= |data| && !finalized && message == old(message)
        invariant Absorbed(absorbed) && absorbed == message + data[..i]
        invariant bitLength == (old(bitLength) + |data| * 8) % U64_LIMIT
        decreases |data| - i
      {
        var take := if |data| - i < 64 - bufferLen then |data| - i else 64 - bufferLen;
        LongerPrefix(message, data, i, take);
        AbsorbChunk(data[i..i + take], absorbed);
        absorbed := absorbed + data[i..i + take];
        i := i + take;
      }
      assert data[..|data|] == data;
      LengthCounts(|message|, |data|);
      message := message + data;
    }

    /** Appends the padding: the marker byte, then zeros until eight bytes are left in the block. */
    method AppendMarker()
      requires Valid() && !finalized
      modifies this, state, buffer
      ensures Valid() && !finalized && bufferLen == 56
      ensures message == old(message) + [0x80] + Zeros(ZeroCount(|old(message)|))
    {
      hide HashBlocks, Pad, Pending, WholeBlocks, Absorbed, ZeroCount;
      ghost var original, zeros := message, ZeroCount(|message|);
      Update([0x80]);
      ghost var k: nat := 0;
      assert message == original + [0x80] + Zeros(0);
      while bufferLen != 56
        invariant Valid() && !finalized && k <= zeros
        invariant message == original + [0x80] + Zeros(k)
        decreases zeros - k
      {
        BufferedLength(message);
        Update([0]);
        Associative(original + [0x80], Zeros(k), [0]);
        k := k + 1;
      }
      BufferedLength(message);
      if k < zeros {
        ZeroCountIsSmallest(|original|, k);
      }
    }

    /** How much is buffered follows from how long the message is. */
    lemma BufferedLength(m: seq<byte>)
      requires Absorbed(m)
      ensures bufferLen == |m| % 64
    {
    }

    method Finalize()
      requires Valid() && !finalized
      modifies this, state, buffer
      ensures Valid() && finalized && message == old(message)
    {
      hide HashBlocks, Pad, BigEndian, Power256, Zeros, ZeroCount, Compress;
      ghost var original := message;
      var bits := bitLength;
      AppendMarker();
      ghost var marked := message;
      for i := 0 to 8
        invariant buffer[..56] == Pending(marked) && state[..] == HashBlocks(WholeBlocks(marked))
        invariant forall k :: 0 <= k < i ==> buffer[56 + k] == BigEndian(bits, 8)[k]
      {
        BigEndianByte(bits, 8, i);
        buffer[56 + i] := bits / Power256(7 - i) % 256;
      }
      assert buffer[..] == Pending(marked) + BigEndian(bits, 8);
      FillsBlock(marked, BigEndian(bits, 8));
      Transform();
      PaddedIsMarked(original);
      bufferLen := 0;
      finalized := true;
      message := original;
    }

    /** The digest of everything given to `Update` before the first call; later calls and updates change nothing. */
    method Digest() returns (out: seq<byte>)
      requires Valid()
      modifies this, state, buffer
      ensures Valid() && finalized && message == old(message)
      ensures out == Sha256.Digest(message)
    {
      hide HashBlocks, Pad, Absorbed;
      if !finalized {
        Finalize();
      }
      out := [];
      for i := 0 to 8
        invariant out == Serialize(state[..i])
      {
        assert state[..i + 1][..i] == state[..i];
        out := out + BytesOf(state[i]);
      }
      assert state[..8] == state[..];
    }

    method HexDigest() returns (hex: string)
      requires Valid()
      modifies this, state, buffer
      ensures Valid() && finalized && message == old(message)
      ensures hex == HexOf(Sha256.Digest(message))
    {
      hide Sha256.Digest, HexOf, Pad, HashBlocks, Absorbed;
      var digest := Digest();
      hex := HexDigits(digest);
    }
  }

  method HexDigits(bytes: seq<byte>) returns (hex: string)
    ensures hex == HexOf(bytes)
  {
    hide DigitChar;
    hex := "";
    for i := 0 to |bytes|
      invariant hex == HexOf(bytes[..i])
    {
      assert bytes[..i + 1][..i] == bytes[..i];
      hex := hex + [DigitChar(bytes[i] / 16), DigitChar(bytes[i] % 16)];
    }
    assert bytes[..|bytes|] == bytes;
  }

  lemma PaddedIsMarked(m: seq<byte>)
    ensures var marked := m + [0x80] + Zeros(ZeroCount(|m|));
      WholeBlocks(marked + LengthField(|m|)) == Pad(m)
  {
    hide BigEndian, Zeros, ZeroCount, WholeBlocks;
    var zeros, length := Zeros(ZeroCount(|m|)), LengthField(|m|);
    Gather(m, [0x80], zeros, length);
    AllWhole(Pad(m));
  }

  lemma Gather(a: seq<byte>, b: seq<byte>, c: seq<byte>, d: seq<byte>)
    ensures a + b + c + d == a + (b + c + d)
  {
  }

  lemma AllWhole(m: seq<byte>)
    requires |m| % 64 == 0
    ensures WholeBlocks(m) == m
  {
  }

  /** Two lower-case digits a byte. */
  function HexOf(bytes: seq<byte>): (hex: string)
    ensures |hex| == 2 * |bytes|
  {
    if bytes == [] then ""
    else HexOf(bytes[..|bytes| - 1]) + [DigitChar(bytes[|bytes| - 1] / 16), DigitChar(bytes[|bytes| - 1] % 16)]
  }

  /** Each byte's two digits say its value. */
  lemma {:induction false} HexOfSpells(bytes: seq<byte>, i: nat)
    requires i < |bytes|
    ensures var hex := HexOf(bytes);
      && IsHexDigit(hex[2 * i]) && IsHexDigit(hex[2 * i + 1])
      && HexValue(hex[2 * i]) * 16 + HexValue(hex[2 * i + 1]) == bytes[i]
  {
    hide DigitChar;
    if i < |bytes| - 1 {
      HexOfSpells(bytes[..|bytes| - 1], i);
    }
  }

  /** However a message is cut up, the digest is that of the whole. */
  method DigestOfPieces(pieces: seq<seq<byte>>) returns (first: seq<byte>, second: seq<byte>)
    ensures first == second == Sha256.Digest(Joined(pieces))
  {
    hide Sha256.Digest, HashBlocks, Pad, Pending, WholeBlocks;
    var hasher := new Hasher();
    for i := 0 to |pieces|
      invariant hasher.Valid() && !hasher.finalized && hasher.message == Joined(pieces[..i])
      invariant fresh(hasher) && fresh(hasher.state) && fresh(hasher.buffer)
    {
      assert pieces[..i + 1][..i] == pieces[..i];
      hasher.Update(pieces[i]);
    }
    assert pieces[..|pieces|] == pieces;
    first := hasher.Digest();
    hasher.Update(first);
    second := hasher.Digest();
  }

  function Joined(pieces: seq<seq<byte>>): seq<byte> {
    if pieces == [] then [] else Joined(pieces[..|pieces| - 1]) + pieces[|pieces| - 1]
  }
}
