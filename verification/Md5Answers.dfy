/** Digests that are known: messages of the test suite in appendix A.5 of RFC 1321, and a message whose second digest
    is another one. Every block is computed four operations at a time. */
module Md5Answers {
  import opened Blocks
  import opened Md5Spec

  /** The four words after four operations. */
  predicate Quad(h: Hash, x: seq<bv32>, t: nat, k: Hash)
    requires |x| == 16
  {
    && k.a == Operate(h.a, h.b, Mix(t, h.b, h.c, h.d), x, Operation(t))
    && k.d == Operate(h.d, k.a, Mix(t + 1, k.a, h.b, h.c), x, Operation(t + 1))
    && k.c == Operate(h.c, k.d, Mix(t + 2, k.d, k.a, h.b), x, Operation(t + 2))
    && k.b == Operate(h.b, k.c, Mix(t + 3, k.c, k.d, k.a), x, Operation(t + 3))
  }

  lemma Four(start: Hash, x: seq<bv32>, t: nat, h: Hash, k: Hash)
    requires |x| == 16 && Steps(start, x, t) == h && Quad(h, x, t, k)
    ensures Steps(start, x, t + 4) == k
  {
    FourSteps(start, x, t, h);
    hide Operate, Mix, Operation, Steps;
  }

  /** A round, with the words after every fourth operation. */
  lemma Sixteen(start: Hash, x: seq<bv32>, t: nat, h: Hash, k4: Hash, k8: Hash, k12: Hash, k16: Hash)
    requires |x| == 16 && Steps(start, x, t) == h
    requires Quad(h, x, t, k4) && Quad(k4, x, t + 4, k8) && Quad(k8, x, t + 8, k12) && Quad(k12, x, t + 12, k16)
    ensures Steps(start, x, t + 16) == k16
  {
    hide Quad, Steps;
    Four(start, x, t, h, k4);
    Four(start, x, t + 4, k4, k8);
    Four(start, x, t + 8, k8, k12);
    Four(start, x, t + 12, k12, k16);
  }

  lemma NoStep(start: Hash, x: seq<bv32>)
    requires |x| == 16
    ensures Steps(start, x, 0) == start
  {
  }

  lemma ShortTailDigest(m: Bytes)
    requires |Tail(m)| < 56
    ensures Digest(m) == HashBytes(Compress(Fold(Whole(m)), OneEnd(Tail(m), LengthWords(|m|))))
  {
    EndsInOneBlock(m, LengthWords(|m|));
    hide OneEnd, LengthWords, Pad, Compress, Fold, HashBytes, Whole, Tail;
    FoldBlock(Whole(m), OneEnd(Tail(m), LengthWords(|m|)));
  }

  lemma ByteIs(n: nat, b: bv8)
    requires b as nat == n % 256
    ensures Byte(n) == b
  {
  }

  lemma LengthOf0()
    ensures LengthWords(0) == [0, 0, 0, 0, 0, 0, 0, 0]
  {
    hide Byte;
    ByteIs(0, 0);
    assert LengthWords(0) == [Byte(0), Byte(0), Byte(0), Byte(0), Byte(0), Byte(0), Byte(0), Byte(0)];
  }

  lemma LengthOf3()
    ensures LengthWords(3) == [24, 0, 0, 0, 0, 0, 0, 0]
  {
    hide Byte;
    ByteIs(24, 24);
    ByteIs(0, 0);
    assert LengthWords(3) == [Byte(24), Byte(0), Byte(0), Byte(0), Byte(0), Byte(0), Byte(0), Byte(0)];
  }

  lemma LengthOf56()
    ensures LengthWords(56) == [0xc0, 1, 0, 0, 0, 0, 0, 0]
  {
    hide Byte;
    ByteIs(0x1c0, 0xc0);
    ByteIs(1, 1);
    ByteIs(0, 0);
    assert LengthWords(56) == [Byte(0x1c0), Byte(1), Byte(0), Byte(0), Byte(0), Byte(0), Byte(0), Byte(0)];
  }

  lemma LengthOf80()
    ensures LengthWords(80) == [0x80, 2, 0, 0, 0, 0, 0, 0]
  {
    hide Byte;
    ByteIs(0x280, 0x80);
    ByteIs(2, 2);
    ByteIs(0, 0);
    assert LengthWords(80) == [Byte(0x280), Byte(2), Byte(0), Byte(0), Byte(0), Byte(0), Byte(0), Byte(0)];
  }

  /** The last block, byte by byte. */
  lemma EndBytes(tail: Bytes, n: nat, low: bv8, high: bv8)
    requires |tail| < 56 && LengthWords(n) == [low, high, 0, 0, 0, 0, 0, 0]
    ensures var s := OneEnd(tail, LengthWords(n));
            && (forall i :: 0 <= i < |tail| ==> s[i] == tail[i]) && s[|tail|] == 0x80
            && (forall i :: |tail| < i < 56 ==> s[i] == 0)
            && s[56] == low && s[57] == high && (forall i :: 58 <= i < 64 ==> s[i] == 0)
  {
    OneEndBytes(tail, LengthWords(n));
    hide LengthWords, OneEnd;
    var s := OneEnd(tail, LengthWords(n));
    forall i | 58 <= i < 64 ensures s[i] == 0 { assert s[56 + (i - 56)] == LengthWords(n)[i - 56]; }
  }

  lemma Compressed(start: Hash, block: Bytes, r: Hash)
    requires |block| == 64 && Steps(start, Words(block), 64) == r
    ensures Compress(start, block) == Hash(Add(start.a, r.a), Add(start.b, r.b), Add(start.c, r.c), Add(start.d, r.d))
  {
    hide Steps, Add, Words;
  }

  lemma WordAt(block: Bytes, k: nat, b0: bv8, b1: bv8, b2: bv8, b3: bv8)
    requires |block| == 64 && k < 16
    requires block[4 * k] == b0 && block[4 * k + 1] == b1 && block[4 * k + 2] == b2 && block[4 * k + 3] == b3
    ensures Words(block)[k] == Word(b0, b1, b2, b3)
  {
    hide Word;
  }

  /** Bytes that are zero give words that are. */
  lemma ZeroWords(block: Bytes, from: nat, to: nat)
    requires |block| == 64 && from <= to <= 16 && forall i :: 4 * from <= i < 4 * to ==> block[i] == 0
    ensures forall k :: from <= k < to ==> Words(block)[k] == 0
  {
    NoBits();
    hide Words, Word;
    forall k | from <= k < to ensures Words(block)[k] == 0 { WordAt(block, k, 0, 0, 0, 0); }
  }

  lemma NoBits()
    ensures Word(0, 0, 0, 0) == 0
  {
  }

  lemma ShortMessage(m: Bytes)
    requires |m| < 56
    ensures Digest(m) == HashBytes(Compress(INITIAL, OneEnd(m, LengthWords(|m|))))
  {
    assert Tail(m) == m && Whole(m) == [];
    hide Compress, OneEnd, HashBytes, Tail, Whole, Digest;
    FoldNothing();
    ShortTailDigest(m);
  }

  // ---------------------------------------------------------------- the empty message

  predicate EmptyWords(x: seq<bv32>) {
    |x| == 16
    && x[0] == 0x80 && x[1] == x[2] == x[3] == x[4] == x[5] == x[6] == x[7] == x[8] == 0x0
    && x[9] == x[10] == x[11] == x[12] == x[13] == x[14] == x[15] == 0x0
  }

  lemma Empty1(x: seq<bv32>)
    requires EmptyWords(x)
    ensures Steps(INITIAL, x, 16) == Hash(0xf56c7cf1, 0xd6819c6a, 0x5aa53f75, 0x374943a7)
  {
    NoStep(INITIAL, x);
    hide Steps, G, H, I, Round2, Round3, Round4;
    Sixteen(INITIAL, x, 0,
            Hash(0x67452301, 0xefcdab89, 0x98badcfe, 0x10325476),
            Hash(0xa5202774, 0x1b163203, 0xe7f06b23, 0xf59592dd),
            Hash(0x32033344, 0x9bc13ce9, 0xf5b158db, 0x2f35d494),
            Hash(0x3893b991, 0x70768a29, 0xe1ef0576, 0xfce4a312),
            Hash(0xf56c7cf1, 0xd6819c6a, 0x5aa53f75, 0x374943a7));
  }

  lemma Empty2(x: seq<bv32>)
    requires EmptyWords(x)
    ensures Steps(INITIAL, x, 32) == Hash(0x13707036, 0xa2205f1f, 0x1c31c384, 0xae7813db)
  {
    Empty1(x);
    hide Steps, F, H, I, Round1, Round3, Round4;
    Sixteen(INITIAL, x, 16,
            Hash(0xf56c7cf1, 0xd6819c6a, 0x5aa53f75, 0x374943a7),
            Hash(0x1c7d7513, 0xbd782e17, 0xc095f13a, 0x7bd57a3a),
            Hash(0x3d1e3e6c, 0xe422531a, 0xeb41643e, 0x68b7b3e3),
            Hash(0x306ec122, 0xa0572807, 0xa3c663da, 0xd28c77c2),
            Hash(0x13707036, 0xa2205f1f, 0x1c31c384, 0xae7813db));
  }

  lemma Empty3(x: seq<bv32>)
    requires EmptyWords(x)
    ensures Steps(INITIAL, x, 48) == Hash(0x3f55edfd, 0xca7d2dbd, 0x68d84ea2, 0x22a31f54)
  {
    Empty2(x);
    hide Steps, F, G, I, Round1, Round2, Round4;
    Sixteen(INITIAL, x, 32,
            Hash(0x13707036, 0xa2205f1f, 0x1c31c384, 0xae7813db),
            Hash(0xdf63eaa1, 0x004b6669, 0x12f3e755, 0xc3689f5b),
            Hash(0x5f7a9b2e, 0xc5dc8c15, 0x91ca4cb7, 0xabc34e16),
            Hash(0x4497169d, 0x0fe32453, 0xfd95f243, 0x76fd93d4),
            Hash(0x3f55edfd, 0xca7d2dbd, 0x68d84ea2, 0x22a31f54));
  }

  lemma Empty4(x: seq<bv32>)
    requires EmptyWords(x)
    ensures Steps(INITIAL, x, 64) == Hash(0x7246fad3, 0x14e45506, 0xff4ea3eb, 0x6e10a476)
  {
    Empty3(x);
    hide Steps, F, G, H, Round1, Round2, Round3;
    Sixteen(INITIAL, x, 48,
            Hash(0x3f55edfd, 0xca7d2dbd, 0x68d84ea2, 0x22a31f54),
            Hash(0x93aa2577, 0x561e0689, 0xcd85b8cb, 0x1688dc85),
            Hash(0x5625a114, 0x1e77fa61, 0x392ad0d0, 0x3450f42b),
            Hash(0x474a9c8c, 0x30130182, 0x36594b14, 0xdfce00bc),
            Hash(0x7246fad3, 0x14e45506, 0xff4ea3eb, 0x6e10a476));
  }

  lemma EmptyWordsAre()
    ensures EmptyWords(Words(OneEnd([], LengthWords(0))))
  {
    var block := OneEnd([], LengthWords(0));
    LengthOf0();
    EndBytes([], 0, 0, 0);
    assert Word(0x80, 0, 0, 0) == 0x80;
    hide Words, Word, LengthWords, OneEnd;
    WordAt(block, 0, 0x80, 0, 0, 0);
    ZeroWords(block, 1, 16);
  }

  lemma EmptyBlock()
    ensures Compress(INITIAL, OneEnd([], LengthWords(0))) == Hash(0xd98c1dd4, 0x04b2008f, 0x980980e9, 0x7e42f8ec)
  {
    var block := OneEnd([], LengthWords(0));
    EmptyWordsAre();
    hide Steps, OneEnd, Words, Compress;
    Empty4(Words(block));
    Compressed(INITIAL, block, Steps(INITIAL, Words(block), 64));
  }

  lemma DigestOfNothing()
    ensures Digest([]) == [0xd4, 0x1d, 0x8c, 0xd9, 0x8f, 0x00, 0xb2, 0x04,
            0xe9, 0x80, 0x09, 0x98, 0xec, 0xf8, 0x42, 0x7e]
  {
    hide Compress, Digest, OneEnd;
    EmptyBlock();
    ShortMessage([]);
  }

  // ---------------------------------------------------------------- "abc"

  predicate AbcWords(x: seq<bv32>) {
    |x| == 16
    && x[0] == 0x80636261 && x[1] == x[2] == x[3] == x[4] == x[5] == x[6] == x[7] == x[8] == 0x0
    && x[9] == x[10] == x[11] == x[12] == x[13] == 0x0 && x[14] == 0x18 && x[15] == 0x0
  }

  lemma Abc1(x: seq<bv32>)
    requires AbcWords(x)
    ensures Steps(INITIAL, x, 16) == Hash(0xdda9b9a6, 0x72aff2e0, 0xe396856b, 0xa1051895)
  {
    NoStep(INITIAL, x);
    hide Steps, G, H, I, Round2, Round3, Round4;
    Sixteen(INITIAL, x, 0,
            Hash(0x67452301, 0xefcdab89, 0x98badcfe, 0x10325476),
            Hash(0xd6d117b4, 0x7ad956f2, 0x2f6fbd72, 0x344a8432),
            Hash(0xc73741ef, 0x928d99f6, 0x207dc67b, 0x8bac3051),
            Hash(0x854b3712, 0x5ed49596, 0x3020401c, 0x74e2f284),
            Hash(0xdda9b9a6, 0x72aff2e0, 0xe396856b, 0xa1051895));
  }

  lemma Abc2(x: seq<bv32>)
    requires AbcWords(x)
    ensures Steps(INITIAL, x, 32) == Hash(0x790a77fb, 0x726342d3, 0xa62884aa, 0x9f47e4f8)
  {
    Abc1(x);
    hide Steps, F, H, I, Round1, Round3, Round4;
    Sixteen(INITIAL, x, 16,
            Hash(0xdda9b9a6, 0x72aff2e0, 0xe396856b, 0xa1051895),
            Hash(0x3e9e9126, 0xb5b204e4, 0xe25e1652, 0x4a1d804e),
            Hash(0x59a8ffda, 0x47092c07, 0xabfc7920, 0x6d002f1e),
            Hash(0xb7f268cf, 0x786acb8f, 0xfe1623b1, 0x09388eff),
            Hash(0x790a77fb, 0x726342d3, 0xa62884aa, 0x9f47e4f8));
  }

  lemma Abc3(x: seq<bv32>)
    requires AbcWords(x)
    ensures Steps(INITIAL, x, 48) == Hash(0x7f2e507b, 0x7beb9700, 0x8fae6399, 0x99d9679d)
  {
    Abc2(x);
    hide Steps, F, G, I, Round1, Round2, Round4;
    Sixteen(INITIAL, x, 32,
            Hash(0x790a77fb, 0x726342d3, 0xa62884aa, 0x9f47e4f8),
            Hash(0xb3707ebf, 0x3b0875c7, 0x8d212ff5, 0x60127b2e),
            Hash(0x21b117b9, 0x5a2f5ea5, 0x3575227e, 0x6e7429d5),
            Hash(0x11de1779, 0x4c6124f4, 0x31c465ca, 0xfadcaa38),
            Hash(0x7f2e507b, 0x7beb9700, 0x8fae6399, 0x99d9679d));
  }

  lemma Abc4(x: seq<bv32>)
    requires AbcWords(x)
    ensures Steps(INITIAL, x, 64) == Hash(0x310ade8f, 0xc08226b3, 0xe484b9d8, 0x624d8cb2)
  {
    Abc3(x);
    hide Steps, F, G, H, Round1, Round2, Round3;
    Sixteen(INITIAL, x, 48,
            Hash(0x7f2e507b, 0x7beb9700, 0x8fae6399, 0x99d9679d),
            Hash(0x7b201df8, 0x8bf025c4, 0xb298cefd, 0xf4e8e96e),
            Hash(0x06cc5e8a, 0x3bfa2c27, 0x7d632dd0, 0x5b0d97aa),
            Hash(0x7f81cc35, 0x7327d604, 0x4f9dbe3f, 0x094454ab),
            Hash(0x310ade8f, 0xc08226b3, 0xe484b9d8, 0x624d8cb2));
  }

  const ABC: Bytes := [0x61, 0x62, 0x63]

  lemma AbcWordsAre()
    ensures AbcWords(Words(OneEnd(ABC, LengthWords(3))))
  {
    var block := OneEnd(ABC, LengthWords(3));
    LengthOf3();
    EndBytes(ABC, 3, 24, 0);
    assert Word(0x61, 0x62, 0x63, 0x80) == 0x80636261 && Word(24, 0, 0, 0) == 24;
    hide Words, Word, LengthWords, OneEnd;
    WordAt(block, 0, 0x61, 0x62, 0x63, 0x80);
    ZeroWords(block, 1, 14);
    WordAt(block, 14, 24, 0, 0, 0);
    ZeroWords(block, 15, 16);
  }

  lemma AbcBlock()
    ensures Compress(INITIAL, OneEnd(ABC, LengthWords(3))) == Hash(0x98500190, 0xb04fd23c, 0x7d3f96d6, 0x727fe128)
  {
    var block := OneEnd(ABC, LengthWords(3));
    AbcWordsAre();
    hide Steps, OneEnd, Words, Compress;
    Abc4(Words(block));
    Compressed(INITIAL, block, Steps(INITIAL, Words(block), 64));
  }

  lemma DigestOfAbc()
    ensures Digest(ABC) == [0x90, 0x01, 0x50, 0x98, 0x3c, 0xd2, 0x4f, 0xb0,
            0xd6, 0x96, 0x3f, 0x7d, 0x28, 0xe1, 0x7f, 0x72]
  {
    hide Compress, Digest, OneEnd;
    AbcBlock();
    ShortMessage(ABC);
  }

  // ---------------------------------------------------------------- the ten digits, eight times

  /** The character at place `i`. */
  function Digit(i: nat): bv8 {
    if i % 10 == 0 then 0x31 else if i % 10 == 1 then 0x32 else if i % 10 == 2 then 0x33 else if i % 10 == 3 then 0x34
    else if i % 10 == 4 then 0x35 else if i % 10 == 5 then 0x36 else if i % 10 == 6 then 0x37
    else if i % 10 == 7 then 0x38 else if i % 10 == 8 then 0x39 else 0x30
  }

  const DIGITS: Bytes := seq(80, i requires 0 <= i < 80 => Digit(i))

  /** Four characters in a row, as a word. */
  function DigitsWord(k: nat): bv32 {
    if k % 5 == 0 then 0x34333231 else if k % 5 == 1 then 0x38373635 else if k % 5 == 2 then 0x32313039
    else if k % 5 == 3 then 0x36353433 else 0x30393837
  }

  lemma Repeats(q: nat, i: nat)
    ensures Digit(20 * q + i) == Digit(i)
  {
    assert (20 * q + i) % 10 == i % 10;
  }

  lemma FourDigits(k: nat)
    ensures Word(Digit(4 * k), Digit(4 * k + 1), Digit(4 * k + 2), Digit(4 * k + 3)) == DigitsWord(k)
  {
    var q, j := k / 5, k % 5;
    Repeats(q, 4 * j);
    Repeats(q, 4 * j + 1);
    Repeats(q, 4 * j + 2);
    Repeats(q, 4 * j + 3);
    FirstFour(j);
    hide Digit, Word;
  }

  lemma FirstFour(j: nat)
    requires j < 5
    ensures Word(Digit(4 * j), Digit(4 * j + 1), Digit(4 * j + 2), Digit(4 * j + 3)) == DigitsWord(j)
  {
  }

  lemma WordOfDigits(k: nat)
    requires k < 20
    ensures Word(DIGITS[4 * k], DIGITS[4 * k + 1], DIGITS[4 * k + 2], DIGITS[4 * k + 3]) == DigitsWord(k)
  {
    FourDigits(k);
    hide Digit, DigitsWord, Word;
  }

  const AFTER_DIGITS := Hash(0xc88d8bec, 0xa4a0dc8b, 0xe9edef99, 0xb0d18d1d)

  predicate DigitsWords(x: seq<bv32>) {
    |x| == 16
    && x[0] == 0x34333231 && x[1] == 0x38373635 && x[2] == 0x32313039 && x[3] == 0x36353433
    && x[4] == 0x30393837 && x[5] == 0x34333231 && x[6] == 0x38373635 && x[7] == 0x32313039
    && x[8] == 0x36353433 && x[9] == 0x30393837 && x[10] == 0x34333231 && x[11] == 0x38373635
    && x[12] == 0x32313039 && x[13] == 0x36353433 && x[14] == 0x30393837 && x[15] == 0x34333231
  }

  lemma Digits1(x: seq<bv32>)
    requires DigitsWords(x)
    ensures Steps(INITIAL, x, 16) == Hash(0x5157e49e, 0xaf506a03, 0x27e983a0, 0xffac907e)
  {
    NoStep(INITIAL, x);
    hide Steps, G, H, I, Round2, Round3, Round4;
    Sixteen(INITIAL, x, 0,
            Hash(0x67452301, 0xefcdab89, 0x98badcfe, 0x10325476),
            Hash(0xbeb8ff8e, 0x862797b0, 0xf8cdf95d, 0x7d989d89),
            Hash(0x8c17de9f, 0xc57e78c1, 0xe99fec1b, 0xc0f32d81),
            Hash(0x7c0aceb7, 0xa5f36f8d, 0x5186a8ba, 0x8869d2d8),
            Hash(0x5157e49e, 0xaf506a03, 0x27e983a0, 0xffac907e));
  }

  lemma Digits2(x: seq<bv32>)
    requires DigitsWords(x)
    ensures Steps(INITIAL, x, 32) == Hash(0xf8bcfbb0, 0x1bf25662, 0x99a0f1b8, 0xd760ed39)
  {
    Digits1(x);
    hide Steps, F, H, I, Round1, Round3, Round4;
    Sixteen(INITIAL, x, 16,
            Hash(0x5157e49e, 0xaf506a03, 0x27e983a0, 0xffac907e),
            Hash(0x8d18e0e8, 0x04280170, 0xef223167, 0x07de0df2),
            Hash(0x78929ee0, 0xad400a91, 0xb18aca50, 0x375c6c2c),
            Hash(0xbb45f43f, 0xb70e35a9, 0x98ade6b5, 0xd61f8a0f),
            Hash(0xf8bcfbb0, 0x1bf25662, 0x99a0f1b8, 0xd760ed39));
  }

  lemma Digits3(x: seq<bv32>)
    requires DigitsWords(x)
    ensures Steps(INITIAL, x, 48) == Hash(0x697032ec, 0xdb4197da, 0xefc2c171, 0xfa597bfc)
  {
    Digits2(x);
    hide Steps, F, G, I, Round1, Round2, Round4;
    Sixteen(INITIAL, x, 32,
            Hash(0xf8bcfbb0, 0x1bf25662, 0x99a0f1b8, 0xd760ed39),
            Hash(0x3dbd76ca, 0xe0162f49, 0xc7ed7c30, 0xfd056171),
            Hash(0x3b32c408, 0x1d4d6f72, 0x9ef871ad, 0x7338d8b7),
            Hash(0xc661460a, 0x89e3c4d7, 0xd6d5b879, 0xd2bf04c9),
            Hash(0x697032ec, 0xdb4197da, 0xefc2c171, 0xfa597bfc));
  }

  lemma Digits4(x: seq<bv32>)
    requires DigitsWords(x)
    ensures Steps(INITIAL, x, 64) == Hash(0x614868eb, 0xb4d33102, 0x5133129b, 0xa09f38a7)
  {
    Digits3(x);
    hide Steps, F, G, H, Round1, Round2, Round3;
    Sixteen(INITIAL, x, 48,
            Hash(0x697032ec, 0xdb4197da, 0xefc2c171, 0xfa597bfc),
            Hash(0x57b91aca, 0xcaa25b01, 0x21efbd88, 0x210c9ebc),
            Hash(0x633d3f7c, 0x7713f5df, 0xccaa1524, 0x1a4d3beb),
            Hash(0x8448b430, 0x660a801d, 0x7e294727, 0x71c93463),
            Hash(0x614868eb, 0xb4d33102, 0x5133129b, 0xa09f38a7));
  }

  predicate DigitsEndWords(x: seq<bv32>) {
    |x| == 16
    && x[0] == 0x38373635 && x[1] == 0x32313039 && x[2] == 0x36353433 && x[3] == 0x30393837 && x[4] == 0x80
    && x[5] == x[6] == x[7] == x[8] == x[9] == x[10] == x[11] == x[12] == 0x0 && x[13] == 0x0 && x[14] == 0x280
    && x[15] == 0x0
  }

  lemma DigitsEnd1(x: seq<bv32>)
    requires DigitsEndWords(x)
    ensures Steps(AFTER_DIGITS, x, 16) == Hash(0xdb4ff71c, 0x58b12eab, 0x04396a39, 0x9b6b4960)
  {
    NoStep(AFTER_DIGITS, x);
    hide Steps, G, H, I, Round2, Round3, Round4;
    Sixteen(AFTER_DIGITS, x, 0,
            Hash(0xc88d8bec, 0xa4a0dc8b, 0xe9edef99, 0xb0d18d1d),
            Hash(0x353af7cf, 0x45e88f2c, 0x63356537, 0x3a4f735a),
            Hash(0x3527497e, 0x377c7d0a, 0x948347ae, 0xab92660e),
            Hash(0xcc912f27, 0xb9ede40c, 0xae23894d, 0x6945a3d5),
            Hash(0xdb4ff71c, 0x58b12eab, 0x04396a39, 0x9b6b4960));
  }

  lemma DigitsEnd2(x: seq<bv32>)
    requires DigitsEndWords(x)
    ensures Steps(AFTER_DIGITS, x, 32) == Hash(0x8761f38e, 0x67092c33, 0x061bc867, 0x7a516116)
  {
    DigitsEnd1(x);
    hide Steps, F, H, I, Round1, Round3, Round4;
    Sixteen(AFTER_DIGITS, x, 16,
            Hash(0xdb4ff71c, 0x58b12eab, 0x04396a39, 0x9b6b4960),
            Hash(0x52c00cae, 0x50f8de8c, 0xa476af6f, 0xaad2a216),
            Hash(0x0d6e6d91, 0x043cb080, 0xd5b7a850, 0x17d64195),
            Hash(0x74f9377e, 0xcb00b96e, 0xe775c8ca, 0x01f2addd),
            Hash(0x8761f38e, 0x67092c33, 0x061bc867, 0x7a516116));
  }

  lemma DigitsEnd3(x: seq<bv32>)
    requires DigitsEndWords(x)
    ensures Steps(AFTER_DIGITS, x, 48) == Hash(0x71123afa, 0x1df7010a, 0xe6a8a386, 0xdc9c8ddb)
  {
    DigitsEnd2(x);
    hide Steps, F, G, I, Round1, Round2, Round4;
    Sixteen(AFTER_DIGITS, x, 32,
            Hash(0x8761f38e, 0x67092c33, 0x061bc867, 0x7a516116),
            Hash(0x91044d5d, 0x2ee1e3fe, 0xc0175fa8, 0x610954eb),
            Hash(0xae26ed7d, 0xdbd1bff6, 0xff4a94dc, 0x71d8ecea),
            Hash(0x9c350028, 0x56b3692f, 0xfacaaf06, 0x97e5da92),
            Hash(0x71123afa, 0x1df7010a, 0xe6a8a386, 0xdc9c8ddb));
  }

  lemma DigitsEnd4(x: seq<bv32>)
    requires DigitsEndWords(x)
    ensures Steps(AFTER_DIGITS, x, 64) == Hash(0xda67616b, 0xb12906a0, 0x44ec5a13, 0xc9e47a04)
  {
    DigitsEnd3(x);
    hide Steps, F, G, H, Round1, Round2, Round3;
    Sixteen(AFTER_DIGITS, x, 48,
            Hash(0x71123afa, 0x1df7010a, 0xe6a8a386, 0xdc9c8ddb),
            Hash(0xd29007e7, 0xc8797828, 0xd3248109, 0x7241a77e),
            Hash(0x7a504abd, 0x9b31b114, 0xa290d6ce, 0x211cc65d),
            Hash(0x723fd22d, 0x4dc4f33d, 0x3d79cf74, 0xd21d6a3b),
            Hash(0xda67616b, 0xb12906a0, 0x44ec5a13, 0xc9e47a04));
  }

  lemma FirstDigits()
    ensures Compress(INITIAL, DIGITS[..64]) == AFTER_DIGITS
  {
    var block := DIGITS[..64];
    assert DigitsWords(Words(block)) by {
      hide Word;
      forall k | 0 <= k < 16 ensures Words(block)[k] == DigitsWord(k) { WordOfDigits(k); }
    }
    hide Steps, Words, Compress, DIGITS;
    Digits4(Words(block));
    Compressed(INITIAL, block, Steps(INITIAL, Words(block), 64));
  }

  lemma LastDigitsFront(block: Bytes)
    requires |block| == 64 && forall i :: 0 <= i < 16 ==> block[i] == DIGITS[64..][i]
    ensures forall k :: 0 <= k < 4 ==> Words(block)[k] == DigitsWord(k + 16)
  {
    hide Word, Words;
    forall k | 0 <= k < 4 ensures Words(block)[k] == DigitsWord(k + 16) {
      WordOfDigits(k + 16);
      hide DIGITS;
      var i := 4 * (k + 16);
      WordAt(block, k, DIGITS[i], DIGITS[i + 1], DIGITS[i + 2], DIGITS[i + 3]);
    }
  }

  lemma LastDigitsEnd(block: Bytes)
    requires block == OneEnd(DIGITS[64..], LengthWords(80))
    ensures forall i :: 0 <= i < 16 ==> block[i] == DIGITS[64..][i]
    ensures block[16] == 0x80 && block[56] == 0x80 && block[57] == 2
    ensures (forall i :: 16 < i < 56 ==> block[i] == 0) && forall i :: 58 <= i < 64 ==> block[i] == 0
  {
    assert |DIGITS| == 80;
    hide DIGITS, OneEnd, LengthWords;
    LengthOf80();
    EndBytes(DIGITS[64..], 80, 0x80, 2);
  }

  lemma LastDigitsWords(block: Bytes)
    requires |block| == 64 && block == OneEnd(DIGITS[64..], LengthWords(80))
    ensures DigitsEndWords(Words(block))
  {
    assert Word(0x80, 0, 0, 0) == 0x80 && Word(0x80, 2, 0, 0) == 0x280;
    hide OneEnd, Words, Word, LengthWords, DIGITS;
    LastDigitsEnd(block);
    LastDigitsFront(block);
    WordAt(block, 4, 0x80, 0, 0, 0);
    ZeroWords(block, 5, 14);
    WordAt(block, 14, 0x80, 2, 0, 0);
    ZeroWords(block, 15, 16);
  }

  lemma LastDigits()
    ensures Compress(AFTER_DIGITS, OneEnd(DIGITS[64..], LengthWords(80)))
         == Hash(0xa2f4ed57, 0x55c9e32b, 0x2eda49ac, 0x7ab60721)
  {
    var block := OneEnd(DIGITS[64..], LengthWords(80));
    LastDigitsWords(block);
    hide Steps, OneEnd, Words, Compress, DIGITS;
    DigitsEnd4(Words(block));
    Compressed(AFTER_DIGITS, block, Steps(AFTER_DIGITS, Words(block), 64));
  }

  lemma DigitsParts()
    ensures Whole(DIGITS) == [] + DIGITS[..64] && Tail(DIGITS) == DIGITS[64..]
  {
    hide Digit;
  }

  lemma FoldDigits()
    ensures Fold(Whole(DIGITS)) == AFTER_DIGITS
  {
    assert |DIGITS| == 80;
    hide DIGITS, Compress, Fold, Whole, Tail;
    DigitsParts();
    FoldNothing();
    FirstDigits();
    FoldBlock([], DIGITS[..64]);
  }

  lemma DigestOfDigits()
    ensures Digest(DIGITS) == [0x57, 0xed, 0xf4, 0xa2, 0x2b, 0xe3, 0xc9, 0x55,
            0xac, 0x49, 0xda, 0x2e, 0x21, 0x07, 0xb6, 0x7a]
  {
    assert |DIGITS| == 80;
    assert HashBytes(Hash(0xa2f4ed57, 0x55c9e32b, 0x2eda49ac, 0x7ab60721))
        == [0x57, 0xed, 0xf4, 0xa2, 0x2b, 0xe3, 0xc9, 0x55,
            0xac, 0x49, 0xda, 0x2e, 0x21, 0x07, 0xb6, 0x7a];
    hide DIGITS, Compress, Digest, Fold, OneEnd, Tail, Whole, HashBytes;
    DigitsParts();
    FoldDigits();
    LastDigits();
    ShortTailDigest(DIGITS);
  }

  // ---------------------------------------------------------------- another digest the second time

  const AFTER_ONES := Hash(0xe1c96146, 0x91644d96, 0x46d13aa2, 0x6f46fb0e)

  const AFTER_ZEROS := Hash(0xcb9d194c, 0xef9d89e3, 0xd1a34cef, 0xac24b04a)

  lemma LengthBlockBytes(block: Bytes)
    requires block == LengthBlock(LengthWords(56))
    ensures (forall i :: 0 <= i < 56 ==> block[i] == 0) && block[56] == 0xc0 && block[57] == 1
    ensures forall i :: 58 <= i < 64 ==> block[i] == 0
  {
    LengthOf56();
    hide LengthWords;
    var s: Bytes := [0xc0, 1, 0, 0, 0, 0, 0, 0];
    forall i | 58 <= i < 64 ensures block[i] == 0 { assert block[i] == s[i - 56]; }
    assert block[56] == s[0] && block[57] == s[1];
  }

  lemma LengthBlockWords()
    ensures OnesEndWords(Words(LengthBlock(LengthWords(56))))
  {
    var block := LengthBlock(LengthWords(56));
    assert Word(0xc0, 1, 0, 0) == 0x1c0;
    hide LengthWords, Words, Word, LengthBlock;
    LengthBlockBytes(block);
    ZeroWords(block, 0, 14);
    WordAt(block, 14, 0xc0, 1, 0, 0);
    ZeroWords(block, 15, 16);
  }

  predicate OnesWords(x: seq<bv32>) {
    |x| == 16
    && x[0] == x[1] == x[2] == x[3] == x[4] == x[5] == x[6] == x[7] == 0x1010101
    && x[8] == x[9] == x[10] == x[11] == x[12] == x[13] == 0x1010101 && x[14] == 0x80 && x[15] == 0x0
  }

  predicate OnesEndWords(x: seq<bv32>) {
    |x| == 16
    && x[0] == x[1] == x[2] == x[3] == x[4] == x[5] == x[6] == x[7] == 0x0
    && x[8] == x[9] == x[10] == x[11] == x[12] == x[13] == 0x0 && x[14] == 0x1c0 && x[15] == 0x0
  }

  lemma Ones1(x: seq<bv32>)
    requires OnesWords(x)
    ensures Steps(INITIAL, x, 16) == Hash(0x1239699c, 0x57a7ef46, 0xd0cd1b3e, 0x0a8efed4)
  {
    NoStep(INITIAL, x);
    hide Steps, G, H, I, Round2, Round3, Round4;
    Sixteen(INITIAL, x, 0,
            Hash(0x67452301, 0xefcdab89, 0x98badcfe, 0x10325476),
            Hash(0x25a067f5, 0xaf31772f, 0xf7a44af7, 0x8225f36e),
            Hash(0x504efd90, 0xc8381918, 0x56bc1f1c, 0x436f04b4),
            Hash(0xf012ac17, 0x1edf9f66, 0x5162b55b, 0x019a757e),
            Hash(0x1239699c, 0x57a7ef46, 0xd0cd1b3e, 0x0a8efed4));
  }

  lemma Ones2(x: seq<bv32>)
    requires OnesWords(x)
    ensures Steps(INITIAL, x, 32) == Hash(0x95225711, 0x13036a0b, 0xb739cc87, 0x84d8be59)
  {
    Ones1(x);
    hide Steps, F, H, I, Round1, Round3, Round4;
    Sixteen(INITIAL, x, 16,
            Hash(0x1239699c, 0x57a7ef46, 0xd0cd1b3e, 0x0a8efed4),
            Hash(0xdbb7dd01, 0x2443e877, 0x10ce7996, 0xcd188847),
            Hash(0x1a20ef4f, 0x40c9f6b0, 0xab0c743b, 0xd92ef357),
            Hash(0x22608483, 0x75b40be8, 0x4bb66751, 0x7164e681),
            Hash(0x95225711, 0x13036a0b, 0xb739cc87, 0x84d8be59));
  }

  lemma Ones3(x: seq<bv32>)
    requires OnesWords(x)
    ensures Steps(INITIAL, x, 48) == Hash(0x7fcaeb37, 0x4280ac76, 0x76ef1acb, 0xba0cb1d6)
  {
    Ones2(x);
    hide Steps, F, G, I, Round1, Round2, Round4;
    Sixteen(INITIAL, x, 32,
            Hash(0x95225711, 0x13036a0b, 0xb739cc87, 0x84d8be59),
            Hash(0x82fe0ca6, 0x319dae57, 0x8593f021, 0x05fe3646),
            Hash(0xdc83b014, 0x826fbc55, 0xd45c946f, 0x3c2e45ef),
            Hash(0x8649975c, 0xaa4cc007, 0xd9c8a504, 0xdfbc1f1e),
            Hash(0x7fcaeb37, 0x4280ac76, 0x76ef1acb, 0xba0cb1d6));
  }

  lemma Ones4(x: seq<bv32>)
    requires OnesWords(x)
    ensures Steps(INITIAL, x, 64) == Hash(0x7a843e45, 0xa196a20d, 0xae165da4, 0x5f14a698)
  {
    Ones3(x);
    hide Steps, F, G, H, Round1, Round2, Round3;
    Sixteen(INITIAL, x, 48,
            Hash(0x7fcaeb37, 0x4280ac76, 0x76ef1acb, 0xba0cb1d6),
            Hash(0xc701789f, 0x9045c4b1, 0xa633844e, 0xef1256ce),
            Hash(0x9f551d4a, 0x707cf6d8, 0x30fbd86d, 0x82d3cc84),
            Hash(0xd1f002ef, 0x252fffe4, 0x9cef3169, 0xf8022fb1),
            Hash(0x7a843e45, 0xa196a20d, 0xae165da4, 0x5f14a698));
  }

  lemma OnesEnd1(x: seq<bv32>)
    requires OnesEndWords(x)
    ensures Steps(AFTER_ONES, x, 16) == Hash(0x5006b58b, 0x5298194b, 0x049c8b89, 0x69a89bac)
  {
    NoStep(AFTER_ONES, x);
    hide Steps, G, H, I, Round2, Round3, Round4;
    Sixteen(AFTER_ONES, x, 0,
            Hash(0xe1c96146, 0x91644d96, 0x46d13aa2, 0x6f46fb0e),
            Hash(0x4cc471a9, 0xfa97d1f6, 0x96cfe8bb, 0x8ca2d74f),
            Hash(0x6ebbdbe2, 0x5f8c68b2, 0xa91c8442, 0x97b328d2),
            Hash(0x1d46e6e2, 0x53f8418c, 0xff24b6a3, 0x655924e3),
            Hash(0x5006b58b, 0x5298194b, 0x049c8b89, 0x69a89bac));
  }

  lemma OnesEnd2(x: seq<bv32>)
    requires OnesEndWords(x)
    ensures Steps(AFTER_ONES, x, 32) == Hash(0x4756506a, 0x3150d13d, 0xe63b85cd, 0xf2752bab)
  {
    OnesEnd1(x);
    hide Steps, F, H, I, Round1, Round3, Round4;
    Sixteen(AFTER_ONES, x, 16,
            Hash(0x5006b58b, 0x5298194b, 0x049c8b89, 0x69a89bac),
            Hash(0xaab6981c, 0xe154bf83, 0x0040ba7c, 0xa6850514),
            Hash(0x06a1bba7, 0x91656266, 0xd0bcc0af, 0xc253d8ba),
            Hash(0xbf7e98fd, 0xd1598c5e, 0x2ac57416, 0xd089132b),
            Hash(0x4756506a, 0x3150d13d, 0xe63b85cd, 0xf2752bab));
  }

  lemma OnesEnd3(x: seq<bv32>)
    requires OnesEndWords(x)
    ensures Steps(AFTER_ONES, x, 48) == Hash(0x11cff14d, 0x4876badd, 0x0ef7b21f, 0xccd21a4c)
  {
    OnesEnd2(x);
    hide Steps, F, G, I, Round1, Round2, Round4;
    Sixteen(AFTER_ONES, x, 32,
            Hash(0x4756506a, 0x3150d13d, 0xe63b85cd, 0xf2752bab),
            Hash(0xf84161b3, 0x21ca8827, 0xd8617ec1, 0x82fcdefb),
            Hash(0xa741c968, 0xd2448f41, 0xbc6d7a2a, 0xd6b35ad6),
            Hash(0x59c40df9, 0x657accef, 0xbfc99d3f, 0x6d9f25c3),
            Hash(0x11cff14d, 0x4876badd, 0x0ef7b21f, 0xccd21a4c));
  }

  lemma OnesEnd4(x: seq<bv32>)
    requires OnesEndWords(x)
    ensures Steps(AFTER_ONES, x, 64) == Hash(0xfc163818, 0xfb5d0465, 0xd6c01b5a, 0x0c6729e0)
  {
    OnesEnd3(x);
    hide Steps, F, G, H, Round1, Round2, Round3;
    Sixteen(AFTER_ONES, x, 48,
            Hash(0x11cff14d, 0x4876badd, 0x0ef7b21f, 0xccd21a4c),
            Hash(0x28cf173b, 0x39017a8f, 0x24ba6b09, 0x04cb3e41),
            Hash(0xa781e7aa, 0xc045ec17, 0xd71547a8, 0x19e2f914),
            Hash(0xdd09c029, 0x20328f74, 0x94248003, 0xd4db317f),
            Hash(0xfc163818, 0xfb5d0465, 0xd6c01b5a, 0x0c6729e0));
  }

  lemma OnesWordsAre()
    ensures OnesWords(Words(TailBlock(ONES)))
  {
    var block := TailBlock(ONES);
    assert Word(1, 1, 1, 1) == 0x01010101 && Word(0x80, 0, 0, 0) == 0x80;
    hide Words, Word, LengthWords;
    forall k | 0 <= k < 14 ensures Words(block)[k] == 0x01010101 { WordAt(block, k, 1, 1, 1, 1); }
    WordAt(block, 14, 0x80, 0, 0, 0);
    ZeroWords(block, 15, 16);
  }

  lemma OnesFirst()
    ensures Compress(INITIAL, TailBlock(ONES)) == AFTER_ONES
  {
    var block := TailBlock(ONES);
    OnesWordsAre();
    hide Steps, TailBlock, Words, Compress, ONES;
    Ones4(Words(block));
    Compressed(INITIAL, block, Steps(INITIAL, Words(block), 64));
  }

  lemma OnesLast()
    ensures Compress(AFTER_ONES, LengthBlock(LengthWords(56))) == Hash(0xdddf995e, 0x8cc151fb, 0x1d9155fc, 0x7bae24ee)
  {
    var block := LengthBlock(LengthWords(56));
    LengthBlockWords();
    hide Steps, LengthBlock, Words, Compress;
    OnesEnd4(Words(block));
    Compressed(AFTER_ONES, block, Steps(AFTER_ONES, Words(block), 64));
  }

  predicate ZerosWords(x: seq<bv32>) {
    |x| == 16
    && x[0] == x[1] == x[2] == x[3] == x[4] == x[5] == x[6] == x[7] == 0x0
    && x[8] == x[9] == x[10] == x[11] == x[12] == x[13] == 0x0 && x[14] == 0x80 && x[15] == 0x0
  }

  lemma Zeros1(x: seq<bv32>)
    requires ZerosWords(x)
    ensures Steps(INITIAL, x, 16) == Hash(0x1a87c9d2, 0xa6681c27, 0xa992aeaa, 0xd5ce4497)
  {
    NoStep(INITIAL, x);
    hide Steps, G, H, I, Round2, Round3, Round4;
    Sixteen(INITIAL, x, 0,
            Hash(0x67452301, 0xefcdab89, 0x98badcfe, 0x10325476),
            Hash(0xa51fe774, 0xcee87580, 0x93f2ab50, 0x219552de),
            Hash(0x1775b61f, 0x01135483, 0x58dc4a44, 0x0cda451e),
            Hash(0xe85b5e49, 0x787aaa00, 0x55d9bb42, 0x516888d4),
            Hash(0x1a87c9d2, 0xa6681c27, 0xa992aeaa, 0xd5ce4497));
  }

  lemma Zeros2(x: seq<bv32>)
    requires ZerosWords(x)
    ensures Steps(INITIAL, x, 32) == Hash(0x0e502f5b, 0x20fbc9e1, 0xe0d6ece7, 0xeb1275c9)
  {
    Zeros1(x);
    hide Steps, F, H, I, Round1, Round3, Round4;
    Sixteen(INITIAL, x, 16,
            Hash(0x1a87c9d2, 0xa6681c27, 0xa992aeaa, 0xd5ce4497),
            Hash(0x463bc89e, 0xaa8db04a, 0x90c319ea, 0x595c95d7),
            Hash(0x49dbdcfe, 0x647c5ff7, 0xfdec7b57, 0x2aa2060a),
            Hash(0x89c1a763, 0xdf52dab5, 0xa9fa5e6d, 0xdc2e2e52),
            Hash(0x0e502f5b, 0x20fbc9e1, 0xe0d6ece7, 0xeb1275c9));
  }

  lemma Zeros3(x: seq<bv32>)
    requires ZerosWords(x)
    ensures Steps(INITIAL, x, 48) == Hash(0xf1916a28, 0x66f7d75e, 0x3361ab73, 0x09d53c55)
  {
    Zeros2(x);
    hide Steps, F, G, I, Round1, Round2, Round4;
    Sixteen(INITIAL, x, 32,
            Hash(0x0e502f5b, 0x20fbc9e1, 0xe0d6ece7, 0xeb1275c9),
            Hash(0xb99760a4, 0xc6241e36, 0x5e704cc3, 0xaf26c805),
            Hash(0x22b27bbf, 0x9ad75312, 0x3dc4fac5, 0x80ba416e),
            Hash(0xca5586f9, 0x9c8582f4, 0xeab9d80b, 0xd71a3dbe),
            Hash(0xf1916a28, 0x66f7d75e, 0x3361ab73, 0x09d53c55));
  }

  lemma Zeros4(x: seq<bv32>)
    requires ZerosWords(x)
    ensures Steps(INITIAL, x, 64) == Hash(0x6457f64b, 0xffcfde5a, 0x38e86ff1, 0x9bf25bd4)
  {
    Zeros3(x);
    hide Steps, F, G, H, Round1, Round2, Round3;
    Sixteen(INITIAL, x, 48,
            Hash(0xf1916a28, 0x66f7d75e, 0x3361ab73, 0x09d53c55),
            Hash(0x3d3a15c8, 0xc8cf2e94, 0x6211e0e6, 0x64341169),
            Hash(0xe5aead6b, 0x42ea2286, 0x97225475, 0x6f6e560c),
            Hash(0x0f34f1ac, 0x2fd24685, 0x3dbb597c, 0xdb8d4416),
            Hash(0x6457f64b, 0xffcfde5a, 0x38e86ff1, 0x9bf25bd4));
  }

  lemma ZerosEnd1(x: seq<bv32>)
    requires OnesEndWords(x)
    ensures Steps(AFTER_ZEROS, x, 16) == Hash(0x3c67e8f6, 0x94d1659c, 0x2df9b7f5, 0x5bb8efca)
  {
    NoStep(AFTER_ZEROS, x);
    hide Steps, G, H, I, Round2, Round3, Round4;
    Sixteen(AFTER_ZEROS, x, 0,
            Hash(0xcb9d194c, 0xef9d89e3, 0xd1a34cef, 0xac24b04a),
            Hash(0x4418e195, 0xc6ee4203, 0x42b05cff, 0xc371983f),
            Hash(0x6a5303c1, 0x9380b73b, 0xf1452445, 0x261d889e),
            Hash(0x0be5467f, 0xfb43a5b8, 0x0538bae0, 0x364dd0cd),
            Hash(0x3c67e8f6, 0x94d1659c, 0x2df9b7f5, 0x5bb8efca));
  }

  lemma ZerosEnd2(x: seq<bv32>)
    requires OnesEndWords(x)
    ensures Steps(AFTER_ZEROS, x, 32) == Hash(0x7c66cdd3, 0xcbfa5621, 0x8f7872d5, 0xf86b1ea4)
  {
    ZerosEnd1(x);
    hide Steps, F, H, I, Round1, Round3, Round4;
    Sixteen(AFTER_ZEROS, x, 16,
            Hash(0x3c67e8f6, 0x94d1659c, 0x2df9b7f5, 0x5bb8efca),
            Hash(0x7fc1e848, 0x4e61f806, 0x1ed02301, 0xf6c88dfb),
            Hash(0xd6964cfa, 0x61c63c05, 0x9329a81b, 0x538af599),
            Hash(0xa531187c, 0x04a12449, 0x70ef8bca, 0xf767b06d),
            Hash(0x7c66cdd3, 0xcbfa5621, 0x8f7872d5, 0xf86b1ea4));
  }

  lemma ZerosEnd3(x: seq<bv32>)
    requires OnesEndWords(x)
    ensures Steps(AFTER_ZEROS, x, 48) == Hash(0x396a468b, 0xa0af1e31, 0x3593dfb8, 0x0230edb2)
  {
    ZerosEnd2(x);
    hide Steps, F, G, I, Round1, Round2, Round4;
    Sixteen(AFTER_ZEROS, x, 32,
            Hash(0x7c66cdd3, 0xcbfa5621, 0x8f7872d5, 0xf86b1ea4),
            Hash(0x609e6c74, 0xd9a235d1, 0xa3491798, 0x2b8b9993),
            Hash(0x45835ef6, 0x440a4bf5, 0x97371742, 0xdcb33cac),
            Hash(0x1ede296c, 0x630727f0, 0x7a0629a1, 0xddb23615),
            Hash(0x396a468b, 0xa0af1e31, 0x3593dfb8, 0x0230edb2));
  }

  lemma ZerosEnd4(x: seq<bv32>)
    requires OnesEndWords(x)
    ensures Steps(AFTER_ZEROS, x, 64) == Hash(0x5640ab97, 0xe3818dc6, 0x28ead3ae, 0xd7540ebf)
  {
    ZerosEnd3(x);
    hide Steps, F, G, H, Round1, Round2, Round3;
    Sixteen(AFTER_ZEROS, x, 48,
            Hash(0x396a468b, 0xa0af1e31, 0x3593dfb8, 0x0230edb2),
            Hash(0x24b9c36e, 0xe2f3cbd1, 0x743c4036, 0xe06461bc),
            Hash(0x5a231156, 0x03594f29, 0x4e5a51d5, 0x60ac83f8),
            Hash(0xb688f70f, 0x4b9e18f2, 0xbdd18c4a, 0xeef46f5e),
            Hash(0x5640ab97, 0xe3818dc6, 0x28ead3ae, 0xd7540ebf));
  }

  lemma ZerosWordsAre()
    ensures ZerosWords(Words(TailBlock(Zeros(56))))
  {
    var block := TailBlock(Zeros(56));
    assert Word(0x80, 0, 0, 0) == 0x80;
    hide Words, Word, LengthWords;
    ZeroWords(block, 0, 14);
    WordAt(block, 14, 0x80, 0, 0, 0);
    ZeroWords(block, 15, 16);
  }

  lemma ZerosFirst()
    ensures Compress(INITIAL, TailBlock(Zeros(56))) == AFTER_ZEROS
  {
    var block := TailBlock(Zeros(56));
    ZerosWordsAre();
    hide Steps, TailBlock, Words, Compress, Zeros;
    Zeros4(Words(block));
    Compressed(INITIAL, block, Steps(INITIAL, Words(block), 64));
  }

  lemma ZerosLast()
    ensures Compress(AFTER_ZEROS, LengthBlock(LengthWords(56))) == Hash(0x21ddc4e3, 0xd31f17a9, 0xfa8e209d, 0x8378bf09)
  {
    var block := LengthBlock(LengthWords(56));
    LengthBlockWords();
    hide Steps, LengthBlock, Words, Compress;
    ZerosEnd4(Words(block));
    Compressed(AFTER_ZEROS, block, Steps(AFTER_ZEROS, Words(block), 64));
  }

  lemma LongMessage(m: Bytes)
    requires 56 <= |m| < 64
    ensures Digest(m) == HashBytes(Compress(Compress(INITIAL, TailBlock(m)), LengthBlock(LengthWords(|m|))))
  {
    assert Tail(m) == m && Whole(m) == [];
    hide Compress, TailBlock, LengthBlock, HashBytes, Tail, Whole, Digest;
    FoldNothing();
    LongTailDigest(m);
  }

  /** An object that is given 56 one bytes hands out their digest once and that of 56 zero bytes ever after. */
  lemma OtherDigestAgain()
    ensures Digest(AfterDigest(ONES)) == Digest(Zeros(56)) != Digest(ONES)
  {
    assert |ONES| == |Zeros(56)| == 56;
    hide Compress, TailBlock, LengthBlock, HashBytes, Digest, AfterDigest, ONES, Zeros;
    OnesAreLost();
    LongMessage(ONES);
    LongMessage(Zeros(56));
    OnesFirst();
    OnesLast();
    ZerosFirst();
    ZerosLast();
    if Digest(Zeros(56)) == Digest(ONES) {
      HashReadsBack(
        Hash(0xdddf995e, 0x8cc151fb, 0x1d9155fc, 0x7bae24ee),
        Hash(0x21ddc4e3, 0xd31f17a9, 0xfa8e209d, 0x8378bf09));
    }
  }
}
