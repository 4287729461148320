/** The md5 class of Include/util/md5.hpp. */
module Md5 {
  import opened Blocks
  import opened Md5Spec

  const PADDING: Bytes := [0x80] + Zeros(63)

  /** `memcpy` into an array. */
  method Copy(dst: array<bv8>, at: nat, src: Bytes)
    requires at + |src| <= dst.Length
    modifies dst
    ensures dst[..] == old(dst[..at]) + src + old(dst[at + |src|..])
    ensures dst[..at + |src|] == old(dst[..at]) + src
  {
    forall i | 0 <= i < |src| {
      dst[at + i] := src[i];
    }
  }

  /** A two-word counter that holds the bits of `n` bytes. */
  ghost predicate Counts(low: nat, high: nat, n: nat) {
    low == 8 * n % 0x1_0000_0000 && high == 8 * n / 0x1_0000_0000 % 0x1_0000_0000
  }

  class MD5 {
    const state: array<bv32>
    const buffer: array<bv8>
    const digest: array<bv8>
    var finished: bool
    var count0: nat
    var count1: nat
    /** The message the state, the counter and the buffer stand for. */
    ghost var message: Bytes

    ghost predicate Shaped() {
      state.Length == 4 && buffer.Length == 64 && digest.Length == 16 && buffer != digest
    }

    ghost function HashValue(): Hash
      reads state
      requires Shaped()
    {
      Hash(state[0], state[1], state[2], state[3])
    }

    /** Whole blocks are folded in, the rest waits in the buffer. */
    ghost predicate Buffered(m: Bytes)
      reads state, buffer
      requires Shaped()
    {
      HashValue() == Fold(Whole(m)) && buffer[..|Tail(m)|] == Tail(m)
    }

    /** State, counter and buffer stand for the message. */
    ghost predicate Loaded()
      reads this, state, buffer
    {
      Shaped() && Counts(count0, count1, |message|) && Buffered(message)
    }

    /** Between calls the flag is always clear. */
    ghost predicate Valid()
      reads this, state, buffer
    {
      Loaded() && !finished
    }

    /** The lengths are kept in 32-bit words on the way. */
    constructor (input: Bytes)
      requires |input| <= 0xFFFF_FFC0
      ensures Valid() && message == input && fresh(state) && fresh(buffer) && fresh(digest)
    {
      hide Fold, Buffered;
      finished := false;
      count0, count1 := 0, 0;
      message := [];
      state := new bv32[4];
      buffer := new bv8[64];
      digest := new bv8[16];
      new;
      SetInitial();
      NothingTaken();
      Init(input);
    }

    method SetInitial()
      requires Shaped()
      modifies state
      ensures HashValue() == Fold([])
    {
      FoldNothing();
      hide Fold;
      state[0] := 0x67452301;
      state[1] := 0xefcdab89;
      state[2] := 0x98badcfe;
      state[3] := 0x10325476;
    }

    ghost method NothingTaken()
      requires Shaped() && message == [] && HashValue() == Fold([]) && count0 == count1 == 0
      ensures Loaded()
    {
      hide Fold;
      assert |message| / 64 == 0;
      assert Whole(message) == [] && Tail(message) == [];
      assert buffer[..0] == [];
    }

    /** The middle of `getDigest`: pads, appends the length, stores the state. */
    method PadAndStore()
      requires Loaded()
      modifies this, state, buffer, digest
      ensures Shaped() && !finished && digest[..] == Digest(old(message)) && buffer[..] == LastBlock(old(message))
    {
      hide Fold, Compress, Whole, Tail, Counts, HashBytes, LengthWords, Pad, Zeros, LastBlock;
      ghost var m := message;
      var bits := EncodeCount();
      var index := Position();
      var padLen := if index < 56 then 56 - index else 120 - index;
      PaddingParts(m, padLen);
      Init(PADDING[..padLen]);
      Init(bits);
      EncodeState();
    }

    /** `getDigest`. The flag is cleared again by `init`, so every call computes; the buffer is not put back. */
    method GetDigest()
      requires Valid()
      modifies this, state, buffer, digest
      ensures Valid() && digest[..] == Digest(old(message)) && message == AfterDigest(old(message))
    {
      hide Fold, Whole, Tail, Counts, Digest, LastBlock, AfterDigest;
      if !finished {
        finished := true;
        ghost var m := message;
        var a, b, c, d, low, high := state[0], state[1], state[2], state[3], count0, count1;
        PadAndStore();
        state[0], state[1], state[2], state[3] := a, b, c, d;
        count0, count1 := low, high;
        message := AfterDigest(m);
        AfterParts(m);
      }
    }

    /** `encode` on the counter. */
    method EncodeCount() returns (output: Bytes)
      requires Counts(count0, count1, |message|)
      ensures output == LengthWords(|message|)
    {
      hide Byte;
      var input := [count0, count1];
      output := [];
      var i := 0;
      while i < 2
        invariant i <= 2 && |output| == 4 * i
        invariant i > 0 ==> output[..4] == LittleEndian(count0, 4)
        invariant i > 1 ==> output[4..] == LittleEndian(count1, 4)
      {
        CountBytes(input[i]);
        output := output
          + [Byte(input[i]), Byte(input[i] / 0x100), Byte(input[i] / 0x1_0000), Byte(input[i] / 0x100_0000)];
        i := i + 1;
      }
    }

    /** `encode` on the state. */
    method EncodeState()
      requires Shaped()
      modifies digest
      ensures digest[..] == HashBytes(HashValue())
    {
      hide WordBytes;
      ghost var h := HashValue();
      var i := 0;
      while i < 4
        invariant i <= 4 && digest[..4 * i] == HashBytes(h)[..4 * i]
      {
        Copy(digest, 4 * i, WordBytes(state[i]));
        NextWord(h, i, state[i]);
        i := i + 1;
      }
    }

    /** The two-word counter of bits. */
    method CountLength(len: nat)
      requires len < 0x1_0000_0000 && Counts(count0, count1, |message|)
      modifies `count0, `count1
      ensures Counts(count0, count1, |message| + len)
    {
      CountUp(|message|, len, count0, count1);
      var added := 8 * len % 0x1_0000_0000;
      count0 := (count0 + added) % 0x1_0000_0000;
      if count0 < added {
        count1 := (count1 + 1) % 0x1_0000_0000;
      }
      count1 := (count1 + len / 0x2000_0000) % 0x1_0000_0000;
    }

    /** The buffer position, read off the counter. */
    method Position() returns (index: nat)
      requires Counts(count0, count1, |message|)
      ensures index == |Tail(message)| < 64
    {
      index := count0 / 8 % 64;
      PositionFromCount(|message|);
    }

    /** Transforms the blocks of the input from `start` on, up to the last whole one. */
    method TransformBlocks(input: Bytes, start: nat, ghost front: Bytes) returns (i: nat)
      requires Shaped() && start <= |input| && |front| % 64 == 0 && HashValue() == Fold(front)
      modifies state
      ensures start <= i <= |input| < i + 64 && (i - start) % 64 == 0
      ensures (|front| + (i - start)) % 64 == 0 && HashValue() == Fold(front + input[start..i])
    {
      hide Fold, Compress;
      i := start;
      assert front + input[start..start] == front;
      ghost var k := 0;
      while i + 63 < |input|
        invariant i == start + 64 * k <= |input| && (|front| + (i - start)) % 64 == 0
        invariant HashValue() == Fold(front + input[start..i])
      {
        Transform(input[i..i + 64]);
        FoldBlock(front + input[start..i], input[i..i + 64]);
        assert front + input[start..i] + input[i..i + 64] == front + input[start..i + 64];
        i := i + 64;
        k := k + 1;
      }
    }

    /** The part of `init` past the end of the first block: completes the buffer and transforms. */
    method CompleteBlocks(input: Bytes, index: nat) returns (i: nat)
      requires Shaped() && Buffered(message) && index == |Tail(message)| && |input| >= 64 - index
      modifies state, buffer
      ensures i <= |input| && Tail(message + input) == input[i..] && HashValue() == Fold(Whole(message + input))
      ensures buffer[..] == Tail(message) + input[..64 - index]
    {
      hide Fold, Compress, Whole, Tail;
      var partLen := 64 - index;
      Copy(buffer, index, input[..partLen]);
      ghost var first := buffer[..];
      assert first == Tail(message) + input[..partLen];
      Transform(buffer[..]);
      FoldBlock(Whole(message), first);
      i := TransformBlocks(input, partLen, Whole(message) + first);
      PastBlock(message, input, i);
    }

    /** The first half of `init`: transforms what can be; the rest of the input, from `i` on, is left for the
        buffer. */
    method Advance(input: Bytes, start: nat) returns (index: nat, i: nat)
      requires Shaped() && Buffered(message) && start == |Tail(message)|
      modifies state, buffer
      ensures i <= |input| && index + |input[i..]| < 64 && HashValue() == Fold(Whole(message + input))
      ensures Tail(message + input) == buffer[..index] + input[i..]
      ensures start + |input| == 64 ==> i == |input| && index == 0 && buffer[..] == Tail(message) + input
    {
      hide Fold, Compress, Whole, Tail;
      index, i := start, 0;
      var partLen := 64 - index;
      if |input| >= partLen {
        i := CompleteBlocks(input, index);
        index := 0;
      } else {
        WithinBlock(message, input);
      }
    }

    /** `init`: takes the next part of the message. The loop index is 32 bits wide. */
    method Init(input: Bytes)
      requires Loaded() && |input| <= 0xFFFF_FFC0
      modifies this, state, buffer
      ensures Valid() && message == old(message) + input
      ensures |Tail(old(message))| + |input| == 64 ==> buffer[..] == Tail(old(message)) + input
    {
      hide Fold, Compress, Whole, Tail, Counts;
      finished := false;
      var index := Position();
      CountLength(|input|);
      var i;
      index, i := Advance(input, index);
      Copy(buffer, index, input[i..]);
      message := message + input;
    }

    /** `transform` on a block. */
    method Transform(block: Bytes)
      requires Shaped() && |block| == 64
      modifies state
      ensures HashValue() == Compress(old(HashValue()), block)
    {
      hide Steps, Words, Add;
      ghost var start := HashValue();
      var x := Decode(block);
      var a, b, c, d := state[0], state[1], state[2], state[3];
      NoStep(start, x);
      a, b, c, d := Round1(x, a, b, c, d, start);
      a, b, c, d := Round2(x, a, b, c, d, start);
      a, b, c, d := Round3(x, a, b, c, d, start);
      a, b, c, d := Round4(x, a, b, c, d, start);
      state[0] := Add(state[0], a);
      state[1] := Add(state[1], b);
      state[2] := Add(state[2], c);
      state[3] := Add(state[3], d);
    }

    /** `decode`: bytes to words, low-order byte first. */
    static method Decode(input: Bytes) returns (output: seq<bv32>)
      requires |input| == 64
      ensures output == Words(input)
    {
      hide Word;
      output := [];
      var j := 0;
      while j < 64
        invariant j % 4 == 0 && j <= 64 && output == Words(input)[..j / 4]
      {
        output := output + [Word(input[j], input[j + 1], input[j + 2], input[j + 3])];
        assert Words(input)[..j / 4 + 1] == Words(input)[..j / 4] + [Words(input)[j / 4]];
        j := j + 4;
      }
    }

    static method Round1(x: seq<bv32>, a0: bv32, b0: bv32, c0: bv32, d0: bv32, ghost start: Hash)
      returns (a: bv32, b: bv32, c: bv32, d: bv32)
      requires |x| == 16 && Hash(a0, b0, c0, d0) == Steps(start, x, 0)
      ensures Hash(a, b, c, d) == Steps(start, x, 16)
    {
      hide F, Turn, Steps;
      a, b, c, d := a0, b0, c0, d0;
      FourSteps(start, x, 0, Hash(a, b, c, d));
      a := Turn(a, F(b, c, d), x[0], 7, 0xd76aa478, b);
      d := Turn(d, F(a, b, c), x[1], 12, 0xe8c7b756, a);
      c := Turn(c, F(d, a, b), x[2], 17, 0x242070db, d);
      b := Turn(b, F(c, d, a), x[3], 22, 0xc1bdceee, c);
      FourSteps(start, x, 4, Hash(a, b, c, d));
      a := Turn(a, F(b, c, d), x[4], 7, 0xf57c0faf, b);
      d := Turn(d, F(a, b, c), x[5], 12, 0x4787c62a, a);
      c := Turn(c, F(d, a, b), x[6], 17, 0xa8304613, d);
      b := Turn(b, F(c, d, a), x[7], 22, 0xfd469501, c);
      FourSteps(start, x, 8, Hash(a, b, c, d));
      a := Turn(a, F(b, c, d), x[8], 7, 0x698098d8, b);
      d := Turn(d, F(a, b, c), x[9], 12, 0x8b44f7af, a);
      c := Turn(c, F(d, a, b), x[10], 17, 0xffff5bb1, d);
      b := Turn(b, F(c, d, a), x[11], 22, 0x895cd7be, c);
      FourSteps(start, x, 12, Hash(a, b, c, d));
      a := Turn(a, F(b, c, d), x[12], 7, 0x6b901122, b);
      d := Turn(d, F(a, b, c), x[13], 12, 0xfd987193, a);
      c := Turn(c, F(d, a, b), x[14], 17, 0xa679438e, d);
      b := Turn(b, F(c, d, a), x[15], 22, 0x49b40821, c);
    }

    static method Round2(x: seq<bv32>, a0: bv32, b0: bv32, c0: bv32, d0: bv32, ghost start: Hash)
      returns (a: bv32, b: bv32, c: bv32, d: bv32)
      requires |x| == 16 && Hash(a0, b0, c0, d0) == Steps(start, x, 16)
      ensures Hash(a, b, c, d) == Steps(start, x, 32)
    {
      hide G, Turn, Steps;
      a, b, c, d := a0, b0, c0, d0;
      FourSteps(start, x, 16, Hash(a, b, c, d));
      a := Turn(a, G(b, c, d), x[1], 5, 0xf61e2562, b);
      d := Turn(d, G(a, b, c), x[6], 9, 0xc040b340, a);
      c := Turn(c, G(d, a, b), x[11], 14, 0x265e5a51, d);
      b := Turn(b, G(c, d, a), x[0], 20, 0xe9b6c7aa, c);
      FourSteps(start, x, 20, Hash(a, b, c, d));
      a := Turn(a, G(b, c, d), x[5], 5, 0xd62f105d, b);
      d := Turn(d, G(a, b, c), x[10], 9, 0x2441453, a);
      c := Turn(c, G(d, a, b), x[15], 14, 0xd8a1e681, d);
      b := Turn(b, G(c, d, a), x[4], 20, 0xe7d3fbc8, c);
      FourSteps(start, x, 24, Hash(a, b, c, d));
      a := Turn(a, G(b, c, d), x[9], 5, 0x21e1cde6, b);
      d := Turn(d, G(a, b, c), x[14], 9, 0xc33707d6, a);
      c := Turn(c, G(d, a, b), x[3], 14, 0xf4d50d87, d);
      b := Turn(b, G(c, d, a), x[8], 20, 0x455a14ed, c);
      FourSteps(start, x, 28, Hash(a, b, c, d));
      a := Turn(a, G(b, c, d), x[13], 5, 0xa9e3e905, b);
      d := Turn(d, G(a, b, c), x[2], 9, 0xfcefa3f8, a);
      c := Turn(c, G(d, a, b), x[7], 14, 0x676f02d9, d);
      b := Turn(b, G(c, d, a), x[12], 20, 0x8d2a4c8a, c);
    }

    static method Round3(x: seq<bv32>, a0: bv32, b0: bv32, c0: bv32, d0: bv32, ghost start: Hash)
      returns (a: bv32, b: bv32, c: bv32, d: bv32)
      requires |x| == 16 && Hash(a0, b0, c0, d0) == Steps(start, x, 32)
      ensures Hash(a, b, c, d) == Steps(start, x, 48)
    {
      hide H, Turn, Steps;
      a, b, c, d := a0, b0, c0, d0;
      FourSteps(start, x, 32, Hash(a, b, c, d));
      a := Turn(a, H(b, c, d), x[5], 4, 0xfffa3942, b);
      d := Turn(d, H(a, b, c), x[8], 11, 0x8771f681, a);
      c := Turn(c, H(d, a, b), x[11], 16, 0x6d9d6122, d);
      b := Turn(b, H(c, d, a), x[14], 23, 0xfde5380c, c);
      FourSteps(start, x, 36, Hash(a, b, c, d));
      a := Turn(a, H(b, c, d), x[1], 4, 0xa4beea44, b);
      d := Turn(d, H(a, b, c), x[4], 11, 0x4bdecfa9, a);
      c := Turn(c, H(d, a, b), x[7], 16, 0xf6bb4b60, d);
      b := Turn(b, H(c, d, a), x[10], 23, 0xbebfbc70, c);
      FourSteps(start, x, 40, Hash(a, b, c, d));
      a := Turn(a, H(b, c, d), x[13], 4, 0x289b7ec6, b);
      d := Turn(d, H(a, b, c), x[0], 11, 0xeaa127fa, a);
      c := Turn(c, H(d, a, b), x[3], 16, 0xd4ef3085, d);
      b := Turn(b, H(c, d, a), x[6], 23, 0x4881d05, c);
      FourSteps(start, x, 44, Hash(a, b, c, d));
      a := Turn(a, H(b, c, d), x[9], 4, 0xd9d4d039, b);
      d := Turn(d, H(a, b, c), x[12], 11, 0xe6db99e5, a);
      c := Turn(c, H(d, a, b), x[15], 16, 0x1fa27cf8, d);
      b := Turn(b, H(c, d, a), x[2], 23, 0xc4ac5665, c);
    }

    static method Round4(x: seq<bv32>, a0: bv32, b0: bv32, c0: bv32, d0: bv32, ghost start: Hash)
      returns (a: bv32, b: bv32, c: bv32, d: bv32)
      requires |x| == 16 && Hash(a0, b0, c0, d0) == Steps(start, x, 48)
      ensures Hash(a, b, c, d) == Steps(start, x, 64)
    {
      hide I, Turn, Steps;
      a, b, c, d := a0, b0, c0, d0;
      FourSteps(start, x, 48, Hash(a, b, c, d));
      a := Turn(a, I(b, c, d), x[0], 6, 0xf4292244, b);
      d := Turn(d, I(a, b, c), x[7], 10, 0x432aff97, a);
      c := Turn(c, I(d, a, b), x[14], 15, 0xab9423a7, d);
      b := Turn(b, I(c, d, a), x[5], 21, 0xfc93a039, c);
      FourSteps(start, x, 52, Hash(a, b, c, d));
      a := Turn(a, I(b, c, d), x[12], 6, 0x655b59c3, b);
      d := Turn(d, I(a, b, c), x[3], 10, 0x8f0ccc92, a);
      c := Turn(c, I(d, a, b), x[10], 15, 0xffeff47d, d);
      b := Turn(b, I(c, d, a), x[1], 21, 0x85845dd1, c);
      FourSteps(start, x, 56, Hash(a, b, c, d));
      a := Turn(a, I(b, c, d), x[8], 6, 0x6fa87e4f, b);
      d := Turn(d, I(a, b, c), x[15], 10, 0xfe2ce6e0, a);
      c := Turn(c, I(d, a, b), x[6], 15, 0xa3014314, d);
      b := Turn(b, I(c, d, a), x[13], 21, 0x4e0811a1, c);
      FourSteps(start, x, 60, Hash(a, b, c, d));
      a := Turn(a, I(b, c, d), x[4], 6, 0xf7537e82, b);
      d := Turn(d, I(a, b, c), x[11], 10, 0xbd3af235, a);
      c := Turn(c, I(d, a, b), x[2], 15, 0x2ad7d2bb, d);
      b := Turn(b, I(c, d, a), x[9], 21, 0xeb86d391, c);
    }

  }

  /** Feeding a message in two parts leaves the object as feeding it at once does. */
  method InitTwice(a: Bytes, b: Bytes) returns (x: MD5, y: MD5)
    requires |a| + |b| <= 0xFFFF_FFC0
    ensures fresh(x) && fresh(y) && x.Valid() && y.Valid()
    ensures x.HashValue() == y.HashValue() && x.count0 == y.count0 && x.count1 == y.count1
    ensures x.buffer[..|a + b| % 64] == y.buffer[..|a + b| % 64] == Tail(a + b)
  {
    hide Fold, Whole, Tail;
    x := new MD5(a);
    x.Init(b);
    y := new MD5(a + b);
    assert x.message == y.message == a + b;
  }

  /** Input past the end of a block: `i` is where the last whole block ends. */
  lemma PastBlock(m: Bytes, input: Bytes, i: nat)
    requires 64 - |Tail(m)| <= i <= |input| < i + 64 && (i - (64 - |Tail(m)|)) % 64 == 0
    ensures Tail(m + input) == input[i..]
    ensures Whole(m + input) == Whole(m) + (Tail(m) + input[..64 - |Tail(m)|]) + input[64 - |Tail(m)|..i]
  {
    var q, k := |m| / 64, (i - (64 - |Tail(m)|)) / 64;
    var w := m + input;
    assert |w| == 64 * (q + 1 + k) + (|input| - i);
    assert |w| / 64 == q + 1 + k;
  }

  lemma WithinBlock(m: Bytes, input: Bytes)
    requires |Tail(m)| + |input| < 64
    ensures Whole(m + input) == Whole(m) && Tail(m + input) == Tail(m) + input
  {
    assert |m + input| / 64 == |m| / 64;
  }

  lemma NextWord(h: Hash, i: nat, w: bv32)
    requires i < 4 && w == [h.a, h.b, h.c, h.d][i]
    ensures HashBytes(h)[..4 * i + 4] == HashBytes(h)[..4 * i] + WordBytes(w)
  {
    hide WordBytes;
  }

  /** What is fed for the padding, and the block it ends in. */
  lemma PaddingParts(m: Bytes, padLen: nat)
    requires padLen == if |Tail(m)| < 56 then 56 - |Tail(m)| else 120 - |Tail(m)|
    ensures var front := m + PADDING[..padLen];
            && front + LengthWords(|m|) == m + Padding(|m|) && Whole(m + Padding(|m|)) == m + Padding(|m|)
            && |Tail(front)| == 56 && Tail(front) + LengthWords(|m|) == LastBlock(m)
  {
    hide LengthWords;
    var front, p, q, r := m + PADDING[..padLen], m + Padding(|m|), |m| / 64, |m| % 64;
    PadIs(|m|, q, r, LengthWords(|m|));
    PadFills(|m|, LengthWords(|m|));
    assert PADDING[..padLen] == [0x80] + Zeros(padLen - 1);
    hide Pad, Zeros;
    assert p == front + LengthWords(|m|);
    assert |front| == 64 * (if r < 56 then q else q + 1) + 56;
  }

  lemma AfterParts(m: Bytes)
    ensures Whole(AfterDigest(m)) == Whole(m) && Tail(AfterDigest(m)) == LastBlock(m)[..|Tail(m)|]
  {
    hide LastBlock;
  }

  lemma NoStep(start: Hash, x: seq<bv32>)
    requires |x| == 16
    ensures Steps(start, x, 0) == start
  {
  }
}
