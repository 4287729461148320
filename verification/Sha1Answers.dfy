/** Digests that are known: the two messages of appendices A and B of FIPS 180-1. Every block is computed from its word
    sequence, five rounds at a time. */
module Sha1Answers {
  import opened Blocks
  import opened Sha1Spec

  /** Sixteen words of the word sequence. */
  datatype Words = Words(
    w0: bv32, w1: bv32, w2: bv32, w3: bv32, w4: bv32, w5: bv32, w6: bv32, w7: bv32,
    w8: bv32, w9: bv32, w10: bv32, w11: bv32, w12: bv32, w13: bv32, w14: bv32, w15: bv32)

  predicate Are(b: Bytes, t: nat, x: Words)
    requires |b| == 64
  {
    && W(b, t) == x.w0 && W(b, t + 1) == x.w1 && W(b, t + 2) == x.w2 && W(b, t + 3) == x.w3
    && W(b, t + 4) == x.w4 && W(b, t + 5) == x.w5 && W(b, t + 6) == x.w6 && W(b, t + 7) == x.w7
    && W(b, t + 8) == x.w8 && W(b, t + 9) == x.w9 && W(b, t + 10) == x.w10 && W(b, t + 11) == x.w11
    && W(b, t + 12) == x.w12 && W(b, t + 13) == x.w13 && W(b, t + 14) == x.w14 && W(b, t + 15) == x.w15
  }

  /** The next sixteen words. */
  predicate Follow(x: Words, y: Words) {
    && y.w0 == Rotate1(Xor4(x.w13, x.w8, x.w2, x.w0)) && y.w1 == Rotate1(Xor4(x.w14, x.w9, x.w3, x.w1))
    && y.w2 == Rotate1(Xor4(x.w15, x.w10, x.w4, x.w2)) && y.w3 == Rotate1(Xor4(y.w0, x.w11, x.w5, x.w3))
    && y.w4 == Rotate1(Xor4(y.w1, x.w12, x.w6, x.w4)) && y.w5 == Rotate1(Xor4(y.w2, x.w13, x.w7, x.w5))
    && y.w6 == Rotate1(Xor4(y.w3, x.w14, x.w8, x.w6)) && y.w7 == Rotate1(Xor4(y.w4, x.w15, x.w9, x.w7))
    && y.w8 == Rotate1(Xor4(y.w5, y.w0, x.w10, x.w8)) && y.w9 == Rotate1(Xor4(y.w6, y.w1, x.w11, x.w9))
    && y.w10 == Rotate1(Xor4(y.w7, y.w2, x.w12, x.w10)) && y.w11 == Rotate1(Xor4(y.w8, y.w3, x.w13, x.w11))
    && y.w12 == Rotate1(Xor4(y.w9, y.w4, x.w14, x.w12)) && y.w13 == Rotate1(Xor4(y.w10, y.w5, x.w15, x.w13))
    && y.w14 == Rotate1(Xor4(y.w11, y.w6, y.w0, x.w14)) && y.w15 == Rotate1(Xor4(y.w12, y.w7, y.w1, x.w15))
  }

  lemma NextWord(b: Bytes, t: nat)
    requires |b| == 64 && t >= 16
    ensures W(b, t) == Rotate1(Xor4(W(b, t - 3), W(b, t - 8), W(b, t - 14), W(b, t - 16)))
  {
    hide Rotate1, Xor4;
  }

  lemma NextWords(b: Bytes, t: nat, x: Words, y: Words)
    requires |b| == 64 && Are(b, t, x) && Follow(x, y)
    ensures Are(b, t + 16, y)
  {
    hide W, Rotate1, Xor4;
    NextWord(b, t + 16); NextWord(b, t + 17); NextWord(b, t + 18); NextWord(b, t + 19);
    NextWord(b, t + 20); NextWord(b, t + 21); NextWord(b, t + 22); NextWord(b, t + 23);
    NextWord(b, t + 24); NextWord(b, t + 25); NextWord(b, t + 26); NextWord(b, t + 27);
    NextWord(b, t + 28); NextWord(b, t + 29); NextWord(b, t + 30); NextWord(b, t + 31);
  }

  lemma NoRound(start: Hash, b: Bytes)
    requires |b| == 64
    ensures Rounds(start, b, 0) == start
  {
  }

  /** Five rounds, given the word that each of them computes. */
  lemma Five(start: Hash, b: Bytes, t: nat, h: Hash, a1: bv32, a2: bv32, a3: bv32, a4: bv32, a5: bv32)
    requires |b| == 64 && Rounds(start, b, t) == h
    requires a1 == Sum5(Rotate5(h.a), F(t, h.b, h.c, h.d), h.e, W(b, t), K(t))
    requires a2 == Sum5(Rotate5(a1), F(t + 1, h.a, Rotate30(h.b), h.c), h.d, W(b, t + 1), K(t + 1))
    requires a3 == Sum5(Rotate5(a2), F(t + 2, a1, Rotate30(h.a), Rotate30(h.b)), h.c, W(b, t + 2), K(t + 2))
    requires a4 == Sum5(Rotate5(a3), F(t + 3, a2, Rotate30(a1), Rotate30(h.a)), Rotate30(h.b), W(b, t + 3), K(t + 3))
    requires a5 == Sum5(Rotate5(a4), F(t + 4, a3, Rotate30(a2), Rotate30(a1)), Rotate30(h.a), W(b, t + 4), K(t + 4))
    ensures Rounds(start, b, t + 5) == Hash(a5, a4, Rotate30(a3), Rotate30(a2), Rotate30(a1))
  {
    hide W, F, K, Sum5, Rotate5, Rotate30;
    assert Rounds(start, b, t + 1) == Round(h, t, W(b, t));
    assert Rounds(start, b, t + 2) == Round(Rounds(start, b, t + 1), t + 1, W(b, t + 1));
    assert Rounds(start, b, t + 3) == Round(Rounds(start, b, t + 2), t + 2, W(b, t + 2));
    assert Rounds(start, b, t + 4) == Round(Rounds(start, b, t + 3), t + 3, W(b, t + 3));
    assert Rounds(start, b, t + 5) == Round(Rounds(start, b, t + 4), t + 4, W(b, t + 4));
  }

  lemma Compressed(start: Hash, b: Bytes, r: Hash)
    requires |b| == 64 && Rounds(start, b, 80) == r
    ensures Compress(start, b)
         == Hash(Add(start.a, r.a), Add(start.b, r.b), Add(start.c, r.c), Add(start.d, r.d), Add(start.e, r.e))
  {
    hide Rounds, Add;
  }

  // ---------------------------------------------------------------- blocks and messages

  lemma WordAt(b: Bytes, k: nat, b0: bv8, b1: bv8, b2: bv8, b3: bv8)
    requires |b| == 64 && k < 16
    requires b[4 * k] == b0 && b[4 * k + 1] == b1 && b[4 * k + 2] == b2 && b[4 * k + 3] == b3
    ensures W(b, k) == Word(b0, b1, b2, b3)
  {
    hide Word;
  }

  lemma NoBits()
    ensures Word(0, 0, 0, 0) == 0
  {
  }

  /** Bytes that are zero give words that are. */
  lemma ZeroWords(b: Bytes, from: nat, to: nat)
    requires |b| == 64 && from <= to <= 16 && forall i :: 4 * from <= i < 4 * to ==> b[i] == 0
    ensures forall k :: from <= k < to ==> W(b, k) == 0
  {
    NoBits();
    hide W, Word;
    forall k | from <= k < to ensures W(b, k) == 0 { WordAt(b, k, 0, 0, 0, 0); }
  }

  lemma ByteIs(n: nat, b: bv8)
    requires b as nat == n % 256
    ensures Byte(n) == b
  {
  }

  lemma LengthOf3()
    ensures LengthWords(3) == [0, 0, 0, 0, 0, 0, 0, 24]
  {
    hide Byte;
    ByteIs(24, 24);
    ByteIs(0, 0);
    assert LengthWords(3) == [Byte(0), Byte(0), Byte(0), Byte(0), Byte(0), Byte(0), Byte(0), Byte(24)];
  }

  lemma LengthOf56()
    ensures LengthWords(56) == [0, 0, 0, 0, 0, 0, 1, 0xc0]
  {
    hide Byte;
    ByteIs(0x1c0, 0xc0);
    ByteIs(1, 1);
    ByteIs(0, 0);
    assert LengthWords(56) == [Byte(0), Byte(0), Byte(0), Byte(0), Byte(0), Byte(0), Byte(1), Byte(0x1c0)];
  }

  lemma ShortDigest(m: Bytes)
    requires |m| < 56
    ensures Digest(m) == Compress(INITIAL, OneEnd(m, LengthWords(|m|)))
  {
    NothingWhole(m);
    EndsInOneBlock(m, LengthWords(|m|));
    hide Compress, Fold, OneEnd, LengthWords, Pad, Whole, Tail;
    FoldNothing();
    FoldBlock([], OneEnd(m, LengthWords(|m|)));
  }

  lemma LongDigest(m: Bytes)
    requires 56 <= |m| < 64
    ensures Digest(m) == Compress(Compress(INITIAL, TailBlock(m)), LengthBlock(LengthWords(|m|)))
  {
    NothingWhole(m);
    EndsInTwoBlocks(m, LengthWords(|m|));
    hide Compress, Fold, TailBlock, LengthBlock, LengthWords, Pad, Whole, Tail;
    FoldNothing();
    FoldBlock([], TailBlock(m));
    assert [] + TailBlock(m) == TailBlock(m);
    FoldBlock(TailBlock(m), LengthBlock(LengthWords(|m|)));
  }

  // ---------------------------------------------------------------- "abc"

  const ABC: Bytes := [0x61, 0x62, 0x63]

  const ABC_0 := Words(
    0x61626380, 0x00000000, 0x00000000, 0x00000000, 0x00000000, 0x00000000, 0x00000000, 0x00000000,
    0x00000000, 0x00000000, 0x00000000, 0x00000000, 0x00000000, 0x00000000, 0x00000000, 0x00000018)

  const ABC_1 := Words(
    0xc2c4c700, 0x00000000, 0x00000030, 0x85898e01, 0x00000000, 0x00000060, 0x0b131c03, 0x00000030,
    0x85898ec1, 0x16263806, 0x00000000, 0x00000180, 0x2c4c700c, 0x000000f0, 0x93afb507, 0x5898e048)

  const ABC_2 := Words(
    0x8e9a9202, 0x00000600, 0xb131c0f0, 0x16263bc6, 0x4ebed41e, 0x626380a1, 0x16263806, 0x000018c0,
    0xd2e138c4, 0x00000f00, 0x3afb5079, 0x898e04e5, 0xe2ba3c2b, 0x000060c0, 0x053a37cd, 0x74458547)

  const ABC_3 := Words(
    0xda9415ed, 0x26380a16, 0x626383a1, 0x4ebf54de, 0x3835b44b, 0x0000f600, 0x1e84c7a3, 0x98e04d98,
    0x651d16a0, 0x62658ca1, 0x458544d6, 0x44584cb7, 0x7ba06619, 0x6380aea2, 0x0ae55269, 0x627b49a1)

  const ABC_4 := Words(
    0x7cd45c9d, 0x000f0000, 0xfb50753a, 0xec6765e8, 0xba3c2be2, 0x0060c000, 0x3a37cd05, 0x458546f4,
    0xb8599dd6, 0x380a1a26, 0x01e02203, 0xe7cc3456, 0xe6e60b69, 0x00f60a00, 0x5795ef4f, 0x822e0879)

  lemma AbcFollow1()
    ensures Follow(ABC_0, ABC_1)
  {
  }

  lemma AbcFollow2()
    ensures Follow(ABC_1, ABC_2)
  {
  }

  lemma AbcFollow3()
    ensures Follow(ABC_2, ABC_3)
  {
  }

  lemma AbcFollow4()
    ensures Follow(ABC_3, ABC_4)
  {
  }

  lemma AbcSchedule(b: Bytes)
    requires |b| == 64 && Are(b, 0, ABC_0)
    ensures Are(b, 16, ABC_1) && Are(b, 32, ABC_2) && Are(b, 48, ABC_3) && Are(b, 64, ABC_4)
  {
    hide Are, Follow, ABC_0, ABC_1, ABC_2, ABC_3, ABC_4;
    AbcFollow1();
    NextWords(b, 0, ABC_0, ABC_1);
    AbcFollow2();
    NextWords(b, 16, ABC_1, ABC_2);
    AbcFollow3();
    NextWords(b, 32, ABC_2, ABC_3);
    AbcFollow4();
    NextWords(b, 48, ABC_3, ABC_4);
  }

  lemma Abc1(b: Bytes)
    requires |b| == 64 && Are(b, 0, ABC_0)
    ensures Rounds(INITIAL, b, 20)
         == Hash(0xfd9e1d7d, 0xdc64901d, 0x20aa99ca, 0xd3a49608, 0xc82f758b)
  {
    AbcSchedule(b);
    NoRound(INITIAL, b);
    hide W, Rounds, Parity, Majority;
    Five(INITIAL, b, 0, Hash(0x67452301, 0xefcdab89, 0x98badcfe, 0x10325476, 0xc3d2e1f0),
         0x0116fc33, 0x8990536d, 0xa1390f08, 0xcdd8e11b, 0xcfd499de);
    Five(INITIAL, b, 5, Hash(0xcfd499de, 0xcdd8e11b, 0x284e43c2, 0x626414db, 0xc045bf0c),
         0x3fc7ca40, 0x993e30c1, 0x9e8c07d4, 0x4b6ae328, 0x8351f929);
    Five(INITIAL, b, 10, Hash(0x8351f929, 0x4b6ae328, 0x27a301f5, 0x664f8c30, 0x0ff1f290),
         0xfbda9e89, 0x63188fe4, 0x4607b664, 0x9128f695, 0x196bee77);
    Five(INITIAL, b, 15, Hash(0x196bee77, 0x9128f695, 0x1181ed99, 0x18c623f9, 0x7ef6a7a2),
         0x20bdd62f, 0x4e925823, 0x82aa6728, 0xdc64901d, 0xfd9e1d7d);
  }

  lemma Abc2(b: Bytes)
    requires |b| == 64 && Are(b, 0, ABC_0)
    ensures Rounds(INITIAL, b, 40)
         == Hash(0x32de1cba, 0x4c986405, 0xf718e5cf, 0x03d447f6, 0xf72eec32)
  {
    AbcSchedule(b);
    Abc1(b);
    hide W, Rounds, Choose, Majority;
    Five(INITIAL, b, 20, Hash(0xfd9e1d7d, 0xdc64901d, 0x20aa99ca, 0xd3a49608, 0xc82f758b),
         0x1a37b0ca, 0x33a23bfc, 0x21283486, 0xd541f12d, 0xc7567dc6);
    Five(INITIAL, b, 25, Hash(0xc7567dc6, 0xd541f12d, 0x884a0d21, 0x0ce88eff, 0x868dec32),
         0x48413ba4, 0xbe35fbd5, 0x4aa84d97, 0x8370b52e, 0xc5fbaf5d);
    Five(INITIAL, b, 30, Hash(0xc5fbaf5d, 0x8370b52e, 0xd2aa1365, 0x6f8d7ef5, 0x12104ee9),
         0x1267b407, 0x3b845d33, 0x046faa0a, 0x2c0ebc11, 0x21796ad4);
    Five(INITIAL, b, 35, Hash(0x21796ad4, 0x2c0ebc11, 0x811bea82, 0xcee1174c, 0xc499ed01),
         0xdcbbb0cb, 0x0f511fd8, 0xdc63973f, 0x4c986405, 0x32de1cba);
  }

  lemma Abc3(b: Bytes)
    requires |b| == 64 && Are(b, 0, ABC_0)
    ensures Rounds(INITIAL, b, 60)
         == Hash(0x3f52de5a, 0x09d785fd, 0x3498bfd4, 0xf211824f, 0xd79915ab)
  {
    AbcSchedule(b);
    Abc2(b);
    hide W, Rounds, Choose, Parity;
    Five(INITIAL, b, 40, Hash(0x32de1cba, 0x4c986405, 0xf718e5cf, 0x03d447f6, 0xf72eec32),
         0xfc87dedf, 0x970a0d5c, 0x7f193dc5, 0xee1b1aaf, 0x40f28e09);
    Five(INITIAL, b, 45, Hash(0x40f28e09, 0xee1b1aaf, 0x5fc64f71, 0x25c28357, 0xff21f7b7),
         0x1c51e1f2, 0xa01b846c, 0xbead02ca, 0xbaf39337, 0x120731c5);
    Five(INITIAL, b, 50, Hash(0x120731c5, 0xbaf39337, 0xafab40b2, 0x2806e11b, 0x8714787c),
         0x641db2ce, 0x3847ad66, 0xe490436d, 0x27e9f1d8, 0x7b71f76d);
    Five(INITIAL, b, 55, Hash(0x7b71f76d, 0x27e9f1d8, 0x792410db, 0x8e11eb59, 0x99076cb3),
         0x5e6456af, 0xc846093f, 0xd262ff50, 0x09d785fd, 0x3f52de5a);
  }

  lemma Abc4(b: Bytes)
    requires |b| == 64 && Are(b, 0, ABC_0)
    ensures Rounds(INITIAL, b, 80)
         == Hash(0x42541b35, 0x5738d5e1, 0x21834873, 0x681e6df6, 0xd8fdf6ad)
  {
    AbcSchedule(b);
    Abc3(b);
    hide W, Rounds, Choose, Majority;
    Five(INITIAL, b, 60, Hash(0x3f52de5a, 0x09d785fd, 0x3498bfd4, 0xf211824f, 0xd79915ab),
         0xd756c147, 0x548c9cb2, 0xb66c020b, 0x6b61c9e1, 0x19dfa7ac);
    Five(INITIAL, b, 65, Hash(0x19dfa7ac, 0x6b61c9e1, 0xed9b0082, 0x9523272c, 0xf5d5b051),
         0x101655f9, 0x0c3df2b4, 0x78dd4d2b, 0x497093c0, 0x3f2588c2);
    Five(INITIAL, b, 70, Hash(0x3f2588c2, 0x497093c0, 0xde37534a, 0x030f7cad, 0x4405957e),
         0xc199f8c7, 0x39859de7, 0xedb42de4, 0x11793f6f, 0x5ee76897);
    Five(INITIAL, b, 75, Hash(0x5ee76897, 0x11793f6f, 0x3b6d0b79, 0xce616779, 0xf0667e31),
         0x63f7dab7, 0xa079b7d9, 0x860d21cc, 0x5738d5e1, 0x42541b35);
  }

  lemma AbcWords()
    ensures Are(OneEnd(ABC, LengthWords(3)), 0, ABC_0)
  {
    var b := OneEnd(ABC, LengthWords(3));
    LengthOf3();
    AbcEnd(b);
    assert Word(0x61, 0x62, 0x63, 0x80) == 0x61626380 && Word(0, 0, 0, 24) == 24;
    hide W, Word, LengthWords, OneEnd, ABC;
    WordAt(b, 0, 0x61, 0x62, 0x63, 0x80);
    ZeroWords(b, 1, 15);
    WordAt(b, 15, 0, 0, 0, 24);
  }

  lemma AbcEnd(b: Bytes)
    requires b == OneEnd(ABC, [0, 0, 0, 0, 0, 0, 0, 24])
    ensures b[0] == 0x61 && b[1] == 0x62 && b[2] == 0x63 && b[3] == 0x80
    ensures b[63] == 24 && forall i :: 4 <= i < 63 ==> b[i] == 0
  {
    var length: Bytes := [0, 0, 0, 0, 0, 0, 0, 24];
    OneEndBytes(ABC, length);
    hide OneEnd;
    forall i | 56 <= i < 63 ensures b[i] == 0 { assert b[56 + (i - 56)] == length[i - 56]; }
    assert b[56 + 7] == length[7];
  }

  lemma DigestOfAbc()
    ensures Digest(ABC) == Hash(0xa9993e36, 0x4706816a, 0xba3e2571, 0x7850c26c, 0x9cd0d89d)
  {
    var b := OneEnd(ABC, LengthWords(3));
    assert |ABC| == 3;
    hide Compress, Digest, OneEnd, LengthWords, ABC, Rounds, Are, ABC_0;
    ShortDigest(ABC);
    AbcWords();
    Abc4(b);
    Compressed(INITIAL, b, Rounds(INITIAL, b, 80));
  }

  // ---------------------------------------------------------------- "abcdbcdecdef...nopq", 56 letters

  /** The letters from a to q. */
  function Letter(n: nat): bv8 {
    if n == 0 then 0x61 else if n == 1 then 0x62 else if n == 2 then 0x63 else if n == 3 then 0x64 else
    if n == 4 then 0x65 else if n == 5 then 0x66 else if n == 6 then 0x67 else if n == 7 then 0x68 else
    if n == 8 then 0x69 else if n == 9 then 0x6a else if n == 10 then 0x6b else if n == 11 then 0x6c else
    if n == 12 then 0x6d else if n == 13 then 0x6e else if n == 14 then 0x6f else if n == 15 then 0x70 else 0x71
  }

  const LONG: Bytes := seq(56, i requires 0 <= i < 56 => Letter(i / 4 + i % 4))

  const AFTER_LONG := Hash(0xf4286818, 0xc37b27ae, 0x0408f581, 0x84677148, 0x4a566572)

  const LONG_0 := Words(
    0x61626364, 0x62636465, 0x63646566, 0x64656667, 0x65666768, 0x66676869, 0x6768696a, 0x68696a6b,
    0x696a6b6c, 0x6a6b6c6d, 0x6b6c6d6e, 0x6c6d6e6f, 0x6d6e6f70, 0x6e6f7071, 0x80000000, 0x00000000)

  const LONG_1 := Words(
    0x0a063a3e, 0xd8dadcdf, 0xdadcdec0, 0xc8d2b4be, 0x6f757b5b, 0x757b5967, 0x8da16d70, 0xdaeefaba,
    0xfaf6cab6, 0xa6fb675a, 0x0c604cc8, 0x604cc02c, 0x49c0e6e2, 0x2ee8cbbc, 0xcfd72ec4, 0x97e9810e)

  const LONG_2 := Words(
    0x0989cbe8, 0xf24843fe, 0x5c40d0ba, 0xa8d9cc3b, 0xb2b9666e, 0xba7b71b7, 0x20b28a72, 0xb28af500,
    0x8ac87842, 0x289addf4, 0x56d51f21, 0xd96b7fd2, 0x3868e778, 0xab5e4848, 0x7f0e2118, 0xde87a111)

  const LONG_3 := Words(
    0xe8be56b0, 0x1a0ae652, 0xcd5611c8, 0x46ef29dc, 0x60d3da6d, 0xddf3ba6e, 0x2737f5e9, 0x4888a710,
    0xd2a1177b, 0x9999633b, 0xd6c69d03, 0xccf6127b, 0x7c58fe6d, 0xfdd99c68, 0xf8e32074, 0xe0ba3c7d)

  const LONG_4 := Words(
    0x152198d6, 0x7b3f1982, 0x37f2d5b7, 0x8596323e, 0x810790d6, 0xbea0a942, 0x11c7e1b1, 0x6158d101,
    0x5fcd77d9, 0x7f2f12e6, 0xf868cfb1, 0xd6e997e9, 0xf526b852, 0xb7578dcc, 0x55d99df4, 0x1ff69958)

  lemma LongFollow1()
    ensures Follow(LONG_0, LONG_1)
  {
  }

  lemma LongFollow2()
    ensures Follow(LONG_1, LONG_2)
  {
  }

  lemma LongFollow3()
    ensures Follow(LONG_2, LONG_3)
  {
  }

  lemma LongFollow4()
    ensures Follow(LONG_3, LONG_4)
  {
  }

  lemma LongSchedule(b: Bytes)
    requires |b| == 64 && Are(b, 0, LONG_0)
    ensures Are(b, 16, LONG_1) && Are(b, 32, LONG_2) && Are(b, 48, LONG_3) && Are(b, 64, LONG_4)
  {
    hide Are, Follow, LONG_0, LONG_1, LONG_2, LONG_3, LONG_4;
    LongFollow1();
    NextWords(b, 0, LONG_0, LONG_1);
    LongFollow2();
    NextWords(b, 16, LONG_1, LONG_2);
    LongFollow3();
    NextWords(b, 32, LONG_2, LONG_3);
    LongFollow4();
    NextWords(b, 48, LONG_3, LONG_4);
  }

  lemma Long1(b: Bytes)
    requires |b| == 64 && Are(b, 0, LONG_0)
    ensures Rounds(INITIAL, b, 20)
         == Hash(0x6c445652, 0x944b1bd1, 0x509ae70d, 0x1ac1a012, 0x5098df8e)
  {
    LongSchedule(b);
    NoRound(INITIAL, b);
    hide W, Rounds, Parity, Majority;
    Five(INITIAL, b, 0, Hash(0x67452301, 0xefcdab89, 0x98badcfe, 0x10325476, 0xc3d2e1f0),
         0x0116fc17, 0xebf3b452, 0x5109913a, 0x2c4f6eac, 0x33f4ae5b);
    Five(INITIAL, b, 5, Hash(0x33f4ae5b, 0x2c4f6eac, 0x9442644e, 0xbafced14, 0xc045bf05),
         0x96b85189, 0xdb04cb58, 0x45833f0f, 0xc565c35e, 0x6350afda);
    Five(INITIAL, b, 10, Hash(0x6350afda, 0xc565c35e, 0xd160cfc3, 0x36c132d6, 0x65ae1462),
         0x8993ea77, 0xe19ecaa2, 0x8603481e, 0x32f94a85, 0xb2e7a8be);
    Five(INITIAL, b, 15, Hash(0xb2e7a8be, 0x32f94a85, 0xa180d207, 0xb867b2a8, 0xe264fa9d),
         0x42637e39, 0x6b068048, 0x426b9c35, 0x944b1bd1, 0x6c445652);
  }

  lemma Long2(b: Bytes)
    requires |b| == 64 && Are(b, 0, LONG_0)
    ensures Rounds(INITIAL, b, 40)
         == Hash(0xadeb7478, 0x24957f22, 0x50fe1eba, 0x564cff26, 0xaadf0cbb)
  {
    LongSchedule(b);
    Long1(b);
    hide W, Rounds, Choose, Majority;
    Five(INITIAL, b, 20, Hash(0x6c445652, 0x944b1bd1, 0x509ae70d, 0x1ac1a012, 0x5098df8e),
         0x95836da5, 0x09511177, 0xe2b92dc4, 0xfd224575, 0xeeb82d9a);
    Five(INITIAL, b, 25, Hash(0xeeb82d9a, 0xfd224575, 0x38ae4b71, 0xc254445d, 0x6560db69),
         0x5a142c1a, 0x2972f7c7, 0xd526a644, 0xe1122421, 0x05b457b2);
    Five(INITIAL, b, 30, Hash(0x05b457b2, 0xe1122421, 0x3549a991, 0xca5cbdf1, 0x96850b06),
         0xa9c84bec, 0x52e31f60, 0x5af3242c, 0x31c756a9, 0xe9ac987c);
    Five(INITIAL, b, 35, Hash(0xe9ac987c, 0x31c756a9, 0x16bcc90b, 0x14b8c7d8, 0x2a7212fb),
         0xab7c32ee, 0x5933fc99, 0x43f87ae9, 0x24957f22, 0xadeb7478);
  }

  lemma Long3(b: Bytes)
    requires |b| == 64 && Are(b, 0, LONG_0)
    ensures Rounds(INITIAL, b, 60)
         == Hash(0x9ef775c3, 0xf03d3782, 0xeb029e53, 0xe9a06dc8, 0x1ddb0e44)
  {
    LongSchedule(b);
    Long2(b);
    hide W, Rounds, Choose, Parity;
    Five(INITIAL, b, 40, Hash(0xadeb7478, 0x24957f22, 0x50fe1eba, 0x564cff26, 0xaadf0cbb),
         0xd70e5010, 0x79bcfb08, 0xf9bcb8de, 0x633e9561, 0x98c1ea64);
    Five(INITIAL, b, 45, Hash(0x98c1ea64, 0x633e9561, 0xbe6f2e37, 0x1e6f3ec2, 0x35c39404),
         0xc6ea241e, 0xa2ad4f02, 0xc8a69090, 0x88341600, 0x7e846f58);
    Five(INITIAL, b, 50, Hash(0x7e846f58, 0x88341600, 0x3229a424, 0xa8ab53c0, 0xb1ba8907),
         0x86e358ba, 0x8d2e76c8, 0xce892e10, 0xedea95b1, 0x36d1230a);
    Five(INITIAL, b, 55, Hash(0x36d1230a, 0xedea95b1, 0x33a24b84, 0x234b9db2, 0xa1b8d62e),
         0x776c3910, 0xa681b723, 0xac0a794f, 0xf03d3782, 0x9ef775c3);
  }

  lemma Long4(b: Bytes)
    requires |b| == 64 && Are(b, 0, LONG_0)
    ensures Rounds(INITIAL, b, 80)
         == Hash(0x8ce34517, 0xd3ad7c25, 0x6b4e1883, 0x74351cd2, 0x86838382)
  {
    LongSchedule(b);
    Long3(b);
    hide W, Rounds, Choose, Majority;
    Five(INITIAL, b, 60, Hash(0x9ef775c3, 0xf03d3782, 0xeb029e53, 0xe9a06dc8, 0x1ddb0e44),
         0x36254b13, 0x4080d4dc, 0x2bfaf7a8, 0x513f9ca0, 0xe5895c81);
    Five(INITIAL, b, 65, Hash(0xe5895c81, 0x513f9ca0, 0x0afebdea, 0x10203537, 0xcd8952c4),
         0x1037d2d5, 0x14a82da9, 0x6d17c9fd, 0x2c7b07bd, 0xfdf6efff);
    Five(INITIAL, b, 70, Hash(0xfdf6efff, 0x2c7b07bd, 0x5b45f27f, 0x452a0b6a, 0x440df4b5),
         0x112b96e3, 0x84065712, 0xab89fb71, 0xc5210e35, 0x352d9f4b);
    Five(INITIAL, b, 75, Hash(0x352d9f4b, 0xc5210e35, 0x6ae27edc, 0xa10195c4, 0xc44ae5b8),
         0x1a0e0e0a, 0xd0d47349, 0xad38620d, 0xd3ad7c25, 0x8ce34517);
  }

  lemma LongWord(b: Bytes, k: nat)
    requires |b| == 64 && k < 14 && forall i :: 0 <= i < 56 ==> b[i] == LONG[i]
    ensures W(b, k) == Word(Letter(k), Letter(k + 1), Letter(k + 2), Letter(k + 3))
  {
    hide W, Word, Letter;
    var i := 4 * k;
    assert i / 4 == (i + 1) / 4 == (i + 2) / 4 == (i + 3) / 4 == k && i % 4 == 0;
    WordAt(b, k, Letter(k), Letter(k + 1), Letter(k + 2), Letter(k + 3));
  }

  /** The letters of word `k` follow each other. */
  function LongWordIs(k: nat): bv32 {
    if k == 0 then LONG_0.w0 else if k == 1 then LONG_0.w1 else if k == 2 then LONG_0.w2
    else if k == 3 then LONG_0.w3 else if k == 4 then LONG_0.w4 else if k == 5 then LONG_0.w5
    else if k == 6 then LONG_0.w6 else if k == 7 then LONG_0.w7 else if k == 8 then LONG_0.w8
    else if k == 9 then LONG_0.w9 else if k == 10 then LONG_0.w10 else if k == 11 then LONG_0.w11
    else if k == 12 then LONG_0.w12 else LONG_0.w13
  }

  lemma FourLetters(k: nat)
    requires k < 14
    ensures Word(Letter(k), Letter(k + 1), Letter(k + 2), Letter(k + 3)) == LongWordIs(k)
  {
  }

  lemma LongWords(b: Bytes)
    requires b == TailBlock(LONG)
    ensures Are(b, 0, LONG_0)
  {
    assert b[56] == 0x80 && forall i :: 57 <= i < 64 ==> b[i] == 0;
    assert forall i :: 0 <= i < 56 ==> b[i] == LONG[i];
    assert Word(0x80, 0, 0, 0) == 0x8000_0000;
    hide W, Word, TailBlock, Letter;
    forall k | 0 <= k < 14 ensures W(b, k) == LongWordIs(k) {
      LongWord(b, k);
      FourLetters(k);
      hide LongWordIs, LONG;
    }
    hide LONG;
    WordAt(b, 14, 0x80, 0, 0, 0);
    ZeroWords(b, 15, 16);
  }

  const LONGEND_0 := Words(
    0x00000000, 0x00000000, 0x00000000, 0x00000000, 0x00000000, 0x00000000, 0x00000000, 0x00000000,
    0x00000000, 0x00000000, 0x00000000, 0x00000000, 0x00000000, 0x00000000, 0x00000000, 0x000001c0)

  const LONGEND_1 := Words(
    0x00000000, 0x00000000, 0x00000380, 0x00000000, 0x00000000, 0x00000700, 0x00000000, 0x00000380,
    0x00000e00, 0x00000000, 0x00000000, 0x00001c00, 0x00000000, 0x00000d80, 0x00003800, 0x00000480)

  const LONGEND_2 := Words(
    0x00000000, 0x00007000, 0x00000e00, 0x00003600, 0x0000e000, 0x00000e00, 0x00000000, 0x0001ce00,
    0x00000000, 0x0000d800, 0x00038000, 0x00004f00, 0x00000000, 0x00070e00, 0x0000ee00, 0x00037500)

  const LONGEND_3 := Words(
    0x000e0000, 0x0000e000, 0x00003600, 0x001cee00, 0x00000000, 0x000df000, 0x00380000, 0x0004c600,
    0x0000e000, 0x0070ee00, 0x000ee000, 0x00369e00, 0x00e00000, 0x000ed600, 0x0000e000, 0x01cea600)

  const LONGEND_4 := Words(
    0x00000000, 0x00d80000, 0x0380e000, 0x004f0000, 0x00000000, 0x070e0000, 0x00ee0000, 0x03751c00,
    0x0e000000, 0x00e0e000, 0x00363800, 0x1cee9000, 0x00000000, 0x0df09000, 0x3800e000, 0x04c77400)

  lemma LongEndFollow1()
    ensures Follow(LONGEND_0, LONGEND_1)
  {
  }

  lemma LongEndFollow2()
    ensures Follow(LONGEND_1, LONGEND_2)
  {
  }

  lemma LongEndFollow3()
    ensures Follow(LONGEND_2, LONGEND_3)
  {
  }

  lemma LongEndFollow4()
    ensures Follow(LONGEND_3, LONGEND_4)
  {
  }

  lemma LongEndSchedule(b: Bytes)
    requires |b| == 64 && Are(b, 0, LONGEND_0)
    ensures Are(b, 16, LONGEND_1) && Are(b, 32, LONGEND_2) && Are(b, 48, LONGEND_3) && Are(b, 64, LONGEND_4)
  {
    hide Are, Follow, LONGEND_0, LONGEND_1, LONGEND_2, LONGEND_3, LONGEND_4;
    LongEndFollow1();
    NextWords(b, 0, LONGEND_0, LONGEND_1);
    LongEndFollow2();
    NextWords(b, 16, LONGEND_1, LONGEND_2);
    LongEndFollow3();
    NextWords(b, 32, LONGEND_2, LONGEND_3);
    LongEndFollow4();
    NextWords(b, 48, LONGEND_3, LONGEND_4);
  }

  lemma LongEnd1(b: Bytes)
    requires |b| == 64 && Are(b, 0, LONGEND_0)
    ensures Rounds(AFTER_LONG, b, 20)
         == Hash(0xd8992153, 0xc2eb709f, 0x2946d62f, 0x9541f6db, 0x365dc8d8)
  {
    LongEndSchedule(b);
    NoRound(AFTER_LONG, b);
    hide W, Rounds, Parity, Majority;
    Five(AFTER_LONG, b, 0, Hash(0xf4286818, 0xc37b27ae, 0x0408f581, 0x84677148, 0x4a566572),
         0x2df257e9, 0x4d3dc58f, 0xc352bb05, 0xeef743c6, 0x41e34277);
    Five(AFTER_LONG, b, 5, Hash(0x41e34277, 0xeef743c6, 0x70d4aec1, 0xd34f7163, 0x4b7c95fa),
         0x5443915c, 0xe7fa0377, 0xc6946813, 0xfdde1de1, 0xb8538aca);
    Five(AFTER_LONG, b, 10, Hash(0xb8538aca, 0xfdde1de1, 0xf1a51a04, 0xf9fe80dd, 0x1510e457),
         0x6ba94f63, 0x43a2792f, 0xfecd7bbf, 0xa2604ca8, 0x258b0baa);
    Five(AFTER_LONG, b, 15, Hash(0x258b0baa, 0xa2604ca8, 0xffb35eef, 0xd0e89e4b, 0xdaea53d8),
         0xd9772360, 0x5507db6e, 0xa51b58bc, 0xc2eb709f, 0xd8992153);
  }

  lemma LongEnd2(b: Bytes)
    requires |b| == 64 && Are(b, 0, LONGEND_0)
    ensures Rounds(AFTER_LONG, b, 40)
         == Hash(0x03bb6310, 0x84e2a5f2, 0x21f56e03, 0xb3bd6b84, 0x1a5b6901)
  {
    LongEndSchedule(b);
    LongEnd1(b);
    hide W, Rounds, Choose, Majority;
    Five(AFTER_LONG, b, 20, Hash(0xd8992153, 0xc2eb709f, 0x2946d62f, 0x9541f6db, 0x365dc8d8),
         0x37482f5f, 0xee8700bd, 0x9ad594b9, 0x8fbaa5b9, 0x88fb5867);
    Five(AFTER_LONG, b, 25, Hash(0x88fb5867, 0x8fbaa5b9, 0x66b5652e, 0x7ba1c02f, 0xcdd20bd7),
         0xeec50521, 0x50bce434, 0x5c416daf, 0x2429be5f, 0x0a2fb108);
    Five(AFTER_LONG, b, 30, Hash(0x0a2fb108, 0x2429be5f, 0xd7105b6b, 0x142f390d, 0x7bb14148),
         0x17986223, 0x8a4af384, 0x6b629993, 0xf15f04f3, 0x295cc25b);
    Five(AFTER_LONG, b, 35, Hash(0x295cc25b, 0xf15f04f3, 0xdad8a664, 0x2292bce1, 0xc5e61888),
         0x696da404, 0xcef5ae12, 0x87d5b80c, 0x84e2a5f2, 0x03bb6310);
  }

  lemma LongEnd3(b: Bytes)
    requires |b| == 64 && Are(b, 0, LONGEND_0)
    ensures Rounds(AFTER_LONG, b, 60)
         == Hash(0xa65818f7, 0x5b086c42, 0xb9e15956, 0xea1256a6, 0xdb69cb9f)
  {
    LongEndSchedule(b);
    LongEnd2(b);
    hide W, Rounds, Choose, Parity;
    Five(AFTER_LONG, b, 40, Hash(0x03bb6310, 0x84e2a5f2, 0x21f56e03, 0xb3bd6b84, 0x1a5b6901),
         0xc2d8f75f, 0xbfb25768, 0x28589152, 0xec1d3d61, 0x3caed7af);
    Five(AFTER_LONG, b, 45, Hash(0x3caed7af, 0xec1d3d61, 0x8a162454, 0x2fec95da, 0xf0b63dd7),
         0xc3d033ea, 0x7316056a, 0x46f93b68, 0xdc8e7f26, 0x850d411c);
    Five(AFTER_LONG, b, 50, Hash(0x850d411c, 0xdc8e7f26, 0x11be4eda, 0x9cc5815a, 0xb0f40cfa),
         0x7e4672c0, 0x89fbd41d, 0x1797e228, 0x431d65bc, 0x2bdbb8cb);
    Five(AFTER_LONG, b, 55, Hash(0x2bdbb8cb, 0x431d65bc, 0x05e5f88a, 0x627ef507, 0x1f919cb0),
         0x6da72e7f, 0xa8495a9b, 0xe785655a, 0x5b086c42, 0xa65818f7);
  }

  lemma LongEnd4(b: Bytes)
    requires |b| == 64 && Are(b, 0, LONGEND_0)
    ensures Rounds(AFTER_LONG, b, 80)
         == Hash(0x906fd62c, 0x58c0aac0, 0xb6a55520, 0x74e9b89d, 0x9af00b7f)
  {
    LongEndSchedule(b);
    LongEnd3(b);
    hide W, Rounds, Choose, Majority;
    Five(AFTER_LONG, b, 60, Hash(0xa65818f7, 0x5b086c42, 0xb9e15956, 0xea1256a6, 0xdb69cb9f),
         0x7aab101b, 0x93614c9c, 0xf66d9bf4, 0xd504902b, 0x60a9da62);
    Five(AFTER_LONG, b, 65, Hash(0x60a9da62, 0xd504902b, 0x3d9b66fd, 0x24d85327, 0xdeaac406),
         0x8b687819, 0x083e90c3, 0xf6226bbf, 0x76c0563b, 0x989dd165);
    Five(AFTER_LONG, b, 70, Hash(0x989dd165, 0x76c0563b, 0xfd889aef, 0xc20fa430, 0x62da1e06),
         0x8b2c7573, 0xae1b8e7b, 0xca1840de, 0x16f3babb, 0xd28d83ad);
    Five(AFTER_LONG, b, 75, Hash(0xd28d83ad, 0x16f3babb, 0xb2861037, 0xeb86e39e, 0xe2cb1d5c),
         0x6bc02dfe, 0xd3a6e275, 0xda955482, 0x58c0aac0, 0x906fd62c);
  }

  lemma LongEndWords(b: Bytes)
    requires b == LengthBlock([0, 0, 0, 0, 0, 0, 1, 0xc0])
    ensures Are(b, 0, LONGEND_0)
  {
    var length: Bytes := [0, 0, 0, 0, 0, 0, 1, 0xc0];
    assert forall i :: 0 <= i < 56 ==> b[i] == 0;
    forall i | 56 <= i < 62 ensures b[i] == 0 { assert b[i] == length[i - 56]; }
    assert b[62] == length[6] && b[63] == length[7] && b[60] == b[61] == 0;
    assert Word(0, 0, 1, 0xc0) == 0x1c0;
    hide W, Word, LengthBlock;
    ZeroWords(b, 0, 15);
    WordAt(b, 15, 0, 0, 1, 0xc0);
  }

  lemma DigestOfLong()
    ensures Digest(LONG) == Hash(0x84983e44, 0x1c3bd26e, 0xbaae4aa1, 0xf95129e5, 0xe54670f1)
  {
    var b, c := TailBlock(LONG), LengthBlock([0, 0, 0, 0, 0, 0, 1, 0xc0]);
    assert |LONG| == 56;
    hide Compress, Digest, TailBlock, LengthBlock, LengthWords, LONG, Rounds, Are, LONG_0, LONGEND_0;
    LengthOf56();
    LongDigest(LONG);
    LongWords(b);
    Long4(b);
    Compressed(INITIAL, b, Rounds(INITIAL, b, 80));
    LongEndWords(c);
    LongEnd4(c);
    Compressed(AFTER_LONG, c, Rounds(AFTER_LONG, c, 80));
  }
}
