/** MD5 as RFC 1321 defines it: padding (sections 3.1 and 3.2), the block function (section 3.4), output (3.5). */
module Md5Spec {
  import opened Blocks
  import opened WordBits

  datatype Hash = Hash(a: bv32, b: bv32, c: bv32, d: bv32)

  const INITIAL := Hash(0x67452301, 0xefcdab89, 0x98badcfe, 0x10325476)

  // ---------------------------------------------------------------- one block

  /** A word from four bytes, low-order byte first. */
  function Word(b0: bv8, b1: bv8, b2: bv8, b3: bv8): bv32 {
    (b0 as bv32) | ((b1 as bv32) << 8) | ((b2 as bv32) << 16) | ((b3 as bv32) << 24)
  }

  function Words(block: Bytes): (x: seq<bv32>)
    requires |block| == 64
    ensures |x| == 16
  {
    seq(16, i requires 0 <= i < 16 => Word(block[4 * i], block[4 * i + 1], block[4 * i + 2], block[4 * i + 3]))
  }

  function F(x: bv32, y: bv32, z: bv32): bv32 { Or(And(x, y), And(Not(x), z)) }

  function G(x: bv32, y: bv32, z: bv32): bv32 { Or(And(x, z), And(y, Not(z))) }

  function H(x: bv32, y: bv32, z: bv32): bv32 { Xor(Xor(x, y), z) }

  function I(x: bv32, y: bv32, z: bv32): bv32 { Xor(y, Or(x, Not(z))) }

  /** The four functions, bit by bit: two choices, the parity, and a difference. */
  lemma FunctionsByBit(x: bv32, y: bv32, z: bv32, i: bv32)
    requires i < 32
    ensures BitSet(F(x, y, z), i) <==> if BitSet(x, i) then BitSet(y, i) else BitSet(z, i)
    ensures BitSet(G(x, y, z), i) <==> if BitSet(z, i) then BitSet(x, i) else BitSet(y, i)
    ensures BitSet(H(x, y, z), i) <==> (BitSet(x, i) != (BitSet(y, i) != BitSet(z, i)))
    ensures BitSet(I(x, y, z), i) <==> (BitSet(y, i) != (BitSet(x, i) || !BitSet(z, i)))
  {
    hide BitSet, And, Or, Xor, Not;
    NotBit(x, i);
    NotBit(z, i);
    AndBit(x, y, i);
    AndBit(Not(x), z, i);
    OrBit(And(x, y), And(Not(x), z), i);
    AndBit(x, z, i);
    AndBit(y, Not(z), i);
    OrBit(And(x, z), And(y, Not(z)), i);
    XorBit(x, y, i);
    XorBit(Xor(x, y), z, i);
    OrBit(x, Not(z), i);
    XorBit(y, Or(x, Not(z)), i);
  }

  function Mix(t: nat, x: bv32, y: bv32, z: bv32): bv32 {
    if t < 16 then F(x, y, z) else if t < 32 then G(x, y, z) else if t < 48 then H(x, y, z) else I(x, y, z)
  }

  /** What an operation takes: a word of the block, a shift amount and a constant. */
  datatype Op = Op(k: nat, s: bv32, sine: bv32)

  /** The operations of the four rounds, in order. */
  function Operation(t: nat): (o: Op)
    ensures o.k < 16 && 0 < o.s < 32
  {
    if t < 16 then Round1(t) else if t < 32 then Round2(t) else if t < 48 then Round3(t) else Round4(t)
  }

  function Round1(t: nat): (o: Op)
    ensures o.k < 16 && 0 < o.s < 32
  {
    match t
    case 0 => Op(0, 7, 0xd76aa478)
    case 1 => Op(1, 12, 0xe8c7b756)
    case 2 => Op(2, 17, 0x242070db)
    case 3 => Op(3, 22, 0xc1bdceee)
    case 4 => Op(4, 7, 0xf57c0faf)
    case 5 => Op(5, 12, 0x4787c62a)
    case 6 => Op(6, 17, 0xa8304613)
    case 7 => Op(7, 22, 0xfd469501)
    case 8 => Op(8, 7, 0x698098d8)
    case 9 => Op(9, 12, 0x8b44f7af)
    case 10 => Op(10, 17, 0xffff5bb1)
    case 11 => Op(11, 22, 0x895cd7be)
    case 12 => Op(12, 7, 0x6b901122)
    case 13 => Op(13, 12, 0xfd987193)
    case 14 => Op(14, 17, 0xa679438e)
    case _ => Op(15, 22, 0x49b40821)
  }

  function Round2(t: nat): (o: Op)
    ensures o.k < 16 && 0 < o.s < 32
  {
    match t
    case 16 => Op(1, 5, 0xf61e2562)
    case 17 => Op(6, 9, 0xc040b340)
    case 18 => Op(11, 14, 0x265e5a51)
    case 19 => Op(0, 20, 0xe9b6c7aa)
    case 20 => Op(5, 5, 0xd62f105d)
    case 21 => Op(10, 9, 0x02441453)
    case 22 => Op(15, 14, 0xd8a1e681)
    case 23 => Op(4, 20, 0xe7d3fbc8)
    case 24 => Op(9, 5, 0x21e1cde6)
    case 25 => Op(14, 9, 0xc33707d6)
    case 26 => Op(3, 14, 0xf4d50d87)
    case 27 => Op(8, 20, 0x455a14ed)
    case 28 => Op(13, 5, 0xa9e3e905)
    case 29 => Op(2, 9, 0xfcefa3f8)
    case 30 => Op(7, 14, 0x676f02d9)
    case _ => Op(12, 20, 0x8d2a4c8a)
  }

  function Round3(t: nat): (o: Op)
    ensures o.k < 16 && 0 < o.s < 32
  {
    match t
    case 32 => Op(5, 4, 0xfffa3942)
    case 33 => Op(8, 11, 0x8771f681)
    case 34 => Op(11, 16, 0x6d9d6122)
    case 35 => Op(14, 23, 0xfde5380c)
    case 36 => Op(1, 4, 0xa4beea44)
    case 37 => Op(4, 11, 0x4bdecfa9)
    case 38 => Op(7, 16, 0xf6bb4b60)
    case 39 => Op(10, 23, 0xbebfbc70)
    case 40 => Op(13, 4, 0x289b7ec6)
    case 41 => Op(0, 11, 0xeaa127fa)
    case 42 => Op(3, 16, 0xd4ef3085)
    case 43 => Op(6, 23, 0x04881d05)
    case 44 => Op(9, 4, 0xd9d4d039)
    case 45 => Op(12, 11, 0xe6db99e5)
    case 46 => Op(15, 16, 0x1fa27cf8)
    case _ => Op(2, 23, 0xc4ac5665)
  }

  function Round4(t: nat): (o: Op)
    ensures o.k < 16 && 0 < o.s < 32
  {
    match t
    case 48 => Op(0, 6, 0xf4292244)
    case 49 => Op(7, 10, 0x432aff97)
    case 50 => Op(14, 15, 0xab9423a7)
    case 51 => Op(5, 21, 0xfc93a039)
    case 52 => Op(12, 6, 0x655b59c3)
    case 53 => Op(3, 10, 0x8f0ccc92)
    case 54 => Op(10, 15, 0xffeff47d)
    case 55 => Op(1, 21, 0x85845dd1)
    case 56 => Op(8, 6, 0x6fa87e4f)
    case 57 => Op(15, 10, 0xfe2ce6e0)
    case 58 => Op(6, 15, 0xa3014314)
    case 59 => Op(13, 21, 0x4e0811a1)
    case 60 => Op(4, 6, 0xf7537e82)
    case 61 => Op(11, 10, 0xbd3af235)
    case 62 => Op(2, 15, 0x2ad7d2bb)
    case _ => Op(9, 21, 0xeb86d391)
  }

  /** The words are taken in steps of 1, 5, 3 and 7 around the block, so that every round takes each word once, and
      the four shift amounts of a round take turns. */
  lemma OperationPattern(t: nat)
    requires t < 64
    ensures Operation(t).k
         == (if t < 16 then t else if t < 32 then 5 * t + 1 else if t < 48 then 3 * t + 5 else 7 * t) % 16
    ensures t % 16 >= 4 ==> Operation(t).s == Operation(t - 4).s
  {
    if t < 16 { Pattern1(t); } else if t < 32 { Pattern2(t); } else if t < 48 { Pattern3(t); } else { Pattern4(t); }
    hide Round1, Round2, Round3, Round4;
  }

  lemma Pattern1(t: nat)
    requires t < 16
    ensures Round1(t).k == t && (t >= 4 ==> Round1(t).s == Round1(t - 4).s)
  {
  }

  lemma Pattern2(t: nat)
    requires 16 <= t < 32
    ensures Round2(t).k == (5 * t + 1) % 16 && (t >= 20 ==> Round2(t).s == Round2(t - 4).s)
  {
  }

  lemma Pattern3(t: nat)
    requires 32 <= t < 48
    ensures Round3(t).k == (3 * t + 5) % 16 && (t >= 36 ==> Round3(t).s == Round3(t - 4).s)
  {
  }

  lemma Pattern4(t: nat)
    requires 48 <= t < 64
    ensures Round4(t).k == 7 * t % 16 && (t >= 52 ==> Round4(t).s == Round4(t - 4).s)
  {
  }

  /** The sum, turned left by `s`, plus `b`. */
  function Turn(a: bv32, f: bv32, x: bv32, s: bv32, ac: bv32, b: bv32): bv32
    requires 0 < s < 32
  {
    var sum := a + (f + x + ac);
    ((sum << s) | (sum >> (32 - s))) + b
  }

  function Operate(a: bv32, b: bv32, f: bv32, x: seq<bv32>, o: Op): bv32
    requires |x| == 16 && o.k < 16 && 0 < o.s < 32
  {
    Turn(a, f, x[o.k], o.s, o.sine, b)
  }

  /** One operation [abcd k s i]; the four words change places. */
  function Step(h: Hash, t: nat, x: seq<bv32>): Hash
    requires |x| == 16
  {
    Hash(h.d, Operate(h.a, h.b, Mix(t, h.b, h.c, h.d), x, Operation(t)), h.b, h.c)
  }

  function Steps(h: Hash, x: seq<bv32>, t: nat): Hash
    requires |x| == 16
  {
    if t == 0 then h else Step(Steps(h, x, t - 1), t - 1, x)
  }

  function Add(a: bv32, b: bv32): bv32 { a + b }

  function Compress(h: Hash, block: Bytes): Hash
    requires |block| == 64
  {
    var r := Steps(h, Words(block), 64);
    Hash(Add(h.a, r.a), Add(h.b, r.b), Add(h.c, r.c), Add(h.d, r.d))
  }

  // ---------------------------------------------------------------- the whole message

  function Fold(s: Bytes): Hash
    requires |s| % 64 == 0
  {
    if s == [] then INITIAL else Compress(Fold(s[..|s| - 64]), s[|s| - 64..])
  }

  /** `k` bytes, least significant first. */
  function LittleEndian(n: nat, k: nat): (s: Bytes)
    ensures |s| == k
  {
    if k == 0 then [] else [Byte(n)] + LittleEndian(n / 256, k - 1)
  }

  /** The length in bits modulo 2^64, low-order word first. */
  function LengthWords(n: nat): (s: Bytes)
    ensures |s| == 8
  {
    LittleEndian(8 * n % 0x1_0000_0000, 4) + LittleEndian(8 * n / 0x1_0000_0000 % 0x1_0000_0000, 4)
  }

  function Padding(n: nat): Bytes { Pad(n, LengthWords(n)) }

  function WordBytes(w: bv32): (s: Bytes)
    ensures |s| == 4
  {
    [(w & 0xff) as bv8, ((w >> 8) & 0xff) as bv8, ((w >> 16) & 0xff) as bv8, ((w >> 24) & 0xff) as bv8]
  }

  function HashBytes(h: Hash): (s: Bytes)
    ensures |s| == 16
  {
    WordBytes(h.a) + WordBytes(h.b) + WordBytes(h.c) + WordBytes(h.d)
  }

  function Digest(m: Bytes): (s: Bytes)
    ensures |s| == 16
  {
    PadFills(|m|, LengthWords(|m|));
    HashBytes(Fold(m + Padding(|m|)))
  }

  /** Reading a word undoes writing it. */
  lemma WordUndoesBytes(w: bv32)
    ensures var s := WordBytes(w); Word(s[0], s[1], s[2], s[3]) == w
  {
  }

  // ---------------------------------------------------------------- folding piece by piece

  lemma FoldNothing()
    ensures Fold([]) == INITIAL
  {
  }

  lemma FoldBlock(s: Bytes, block: Bytes)
    requires |s| % 64 == 0 && |block| == 64
    ensures Fold(s + block) == Compress(Fold(s), block)
  {
    hide Compress;
    assert (s + block)[..|s|] == s && (s + block)[|s|..] == block;
  }

  /** Four operations, as the unrolled code writes them: no word moves. */
  lemma FourSteps(start: Hash, x: seq<bv32>, t: nat, h: Hash)
    requires |x| == 16 && h == Steps(start, x, t)
    ensures var a := Operate(h.a, h.b, Mix(t, h.b, h.c, h.d), x, Operation(t));
            var d := Operate(h.d, a, Mix(t + 1, a, h.b, h.c), x, Operation(t + 1));
            var c := Operate(h.c, d, Mix(t + 2, d, a, h.b), x, Operation(t + 2));
            var b := Operate(h.b, c, Mix(t + 3, c, d, a), x, Operation(t + 3));
            Steps(start, x, t + 4) == Hash(a, b, c, d)
  {
    hide Operate, Mix, Operation;
    assert Steps(start, x, t + 2) == Step(Step(h, t, x), t + 1, x);
    assert Steps(start, x, t + 4) == Step(Step(Steps(start, x, t + 2), t + 2, x), t + 3, x);
  }

  // ---------------------------------------------------------------- the counter

  /** The two-word counter follows eight times the length modulo 2^64. */
  lemma CountUp(n: nat, len: nat, low: nat, high: nat)
    requires len < 0x1_0000_0000
    requires low == 8 * n % 0x1_0000_0000 && high == 8 * n / 0x1_0000_0000 % 0x1_0000_0000
    ensures var added := 8 * len % 0x1_0000_0000;
            var low' := (low + added) % 0x1_0000_0000;
            var carried := if low' < added then (high + 1) % 0x1_0000_0000 else high;
            && low' == 8 * (n + len) % 0x1_0000_0000
            && (carried + len / 0x2000_0000) % 0x1_0000_0000 == 8 * (n + len) / 0x1_0000_0000 % 0x1_0000_0000
  {
    var added, top := 8 * len % 0x1_0000_0000, len / 0x2000_0000;
    var h := 8 * n / 0x1_0000_0000;
    assert 8 * len == 0x1_0000_0000 * top + added;
    assert 8 * n == 0x1_0000_0000 * h + low;
    var carry := if low + added >= 0x1_0000_0000 then 1 else 0;
    Divided(8 * (n + len), h + top + carry, low + added - 0x1_0000_0000 * carry);
    Wraps(h, carry, top);
  }

  lemma Divided(n: nat, q: nat, r: nat)
    requires n == 0x1_0000_0000 * q + r && r < 0x1_0000_0000
    ensures n / 0x1_0000_0000 == q && n % 0x1_0000_0000 == r
  {
  }

  lemma Wraps(h: nat, carry: nat, top: nat)
    ensures ((h % 0x1_0000_0000 + carry) % 0x1_0000_0000 + top) % 0x1_0000_0000 == (h + carry + top) % 0x1_0000_0000
    ensures (h % 0x1_0000_0000 + top) % 0x1_0000_0000 == (h + top) % 0x1_0000_0000
  {
  }

  /** The buffer position is read off the counter. */
  lemma PositionFromCount(n: nat)
    ensures 8 * n % 0x1_0000_0000 / 8 % 64 == n % 64
  {
    var k := 8 * n / 0x1_0000_0000;
    assert 8 * n % 0x1_0000_0000 == 8 * (n - 0x2000_0000 * k);
    var j := n - 0x2000_0000 * k;
    assert n == j + 64 * (0x80_0000 * k);
  }

  /** The four bytes of a word, as shifts and masks take them. */
  lemma CountBytes(w: nat)
    ensures LittleEndian(w, 4) == [Byte(w), Byte(w / 0x100), Byte(w / 0x1_0000), Byte(w / 0x100_0000)]
  {
    hide Byte;
    NextByte(w, 3);
    NextByte(w / 0x100, 2);
    NextByte(w / 0x1_0000, 1);
    NextByte(w / 0x100_0000, 0);
    assert w / 0x100 / 256 == w / 0x1_0000 && w / 0x1_0000 / 256 == w / 0x100_0000;
  }

  lemma NextByte(n: nat, k: nat)
    ensures LittleEndian(n, k + 1) == [Byte(n)] + LittleEndian(n / 256, k)
  {
  }

  // ---------------------------------------------------------------- later digests

  /** The last block of the padded message. */
  function LastBlock(m: Bytes): (s: Bytes)
    ensures |s| == 64
  {
    PadFills(|m|, LengthWords(|m|));
    var p := m + Padding(|m|);
    p[|p| - 64..]
  }

  /** The message the object stands for once it has given a digest: the state and the counter are put back, the
      buffer is left with the last block. */
  function AfterDigest(m: Bytes): (m': Bytes)
    ensures |m'| == |m|
  {
    Whole(m) + LastBlock(m)[..|Tail(m)|]
  }

  lemma LastBlockIs(m: Bytes)
    ensures LastBlock(m) ==
      if |Tail(m)| < 56 then Tail(m) + [0x80] + Zeros(55 - |Tail(m)|) + LengthWords(|m|)
      else Zeros(56) + LengthWords(|m|)
  {
    var q, r := |m| / 64, |m| % 64;
    if r < 56 { PadsInOneBlock(m, q, r, LengthWords(|m|)); } else { PadsInTwoBlocks(m, q, r, LengthWords(|m|)); }
    hide Zeros, LengthWords, Pad;
  }

  /** The object still stands for the same message exactly if the tail in the buffer left room for the length, or
      happened to be what the padding put in its place. */
  lemma MessageKeptIff(m: Bytes)
    ensures var r := |Tail(m)|;
            AfterDigest(m) == m <==> r < 56 || Tail(m) == (Zeros(56) + LengthWords(|m|))[..r]
  {
    hide LastBlock, LengthWords, Zeros, Whole, Tail;
    LastBlockIs(m);
    var r := |Tail(m)|;
    assert AfterDigest(m)[|Whole(m)|..] == LastBlock(m)[..r] && m[|Whole(m)|..] == Tail(m);
    if r < 56 { assert LastBlock(m)[..r] == Tail(m); }
  }

  const ONES: Bytes := seq(56, _ => 1)

  /** After its digest the object of 56 one bytes stands for 56 zero bytes. */
  lemma OnesAreLost()
    ensures AfterDigest(ONES) == Zeros(56) != ONES
  {
    hide LastBlock, LengthWords;
    assert Whole(ONES) == [] && Tail(ONES) == ONES;
    LastBlockIs(ONES);
    assert LastBlock(ONES)[..56] == Zeros(56);
    assert ONES[0] == 1 && Zeros(56)[0] == 0;
  }

  /** A tail that leaves room for the length gives the same digest again. */
  lemma SameDigestAgain(m: Bytes)
    requires |Tail(m)| < 56
    ensures Digest(AfterDigest(m)) == Digest(m)
  {
    MessageKeptIff(m);
  }

  lemma HashReadsBack(h: Hash, k: Hash)
    requires HashBytes(h) == HashBytes(k)
    ensures h == k
  {
    WordsReadBack(h);
    WordsReadBack(k);
    hide Word, HashBytes;
  }

  lemma WordsReadBack(h: Hash)
    ensures var s := HashBytes(h);
            h == Hash(Word(s[0], s[1], s[2], s[3]), Word(s[4], s[5], s[6], s[7]),
                      Word(s[8], s[9], s[10], s[11]), Word(s[12], s[13], s[14], s[15]))
  {
    WordUndoesBytes(h.a);
    WordUndoesBytes(h.b);
    WordUndoesBytes(h.c);
    WordUndoesBytes(h.d);
    hide Word, WordBytes;
  }

  lemma FoldTwo(s: Bytes, first: Bytes, second: Bytes)
    requires |s| % 64 == 0 && |first| == |second| == 64
    ensures Fold(s + first + second) == Compress(Compress(Fold(s), first), second)
  {
    hide Compress, Fold;
    FoldBlock(s, first);
    FoldBlock(s + first, second);
  }

  lemma LongTailDigest(m: Bytes)
    requires |Tail(m)| >= 56
    ensures Digest(m)
         == HashBytes(Compress(Compress(Fold(Whole(m)), TailBlock(Tail(m))), LengthBlock(LengthWords(|m|))))
  {
    EndsInTwoBlocks(m, LengthWords(|m|));
    hide LengthWords, Pad, Compress, Fold, HashBytes, Whole, Tail, TailBlock, LengthBlock;
    FoldTwo(Whole(m), TailBlock(Tail(m)), LengthBlock(LengthWords(|m|)));
  }

  lemma AfterDigestParts(m: Bytes)
    requires |Tail(m)| >= 56
    ensures Whole(AfterDigest(m)) == Whole(m) && Tail(AfterDigest(m)) == LengthBlock(LengthWords(|m|))[..|Tail(m)|]
  {
    LastBlockIs(m);
    hide LastBlock, LengthWords, Zeros;
  }

  /** A tail that leaves no room gives the same digest again exactly if the two blocks that end the padded message
      lead the block function to one state from the tail and from what has replaced it. */
  lemma SameDigestIff(m: Bytes)
    requires |Tail(m)| >= 56
    ensures Digest(AfterDigest(m)) == Digest(m)
       <==> var h := Fold(Whole(m));
            var last := LengthBlock(LengthWords(|m|));
            Compress(Compress(h, TailBlock(last[..|Tail(m)|])), last) == Compress(Compress(h, TailBlock(Tail(m))), last)
  {
    AfterDigestParts(m);
    LongTailDigest(m);
    LongTailDigest(AfterDigest(m));
    hide Compress, Fold, HashBytes, Whole, Tail, TailBlock, LengthBlock, LengthWords, Digest, AfterDigest;
    var h := Fold(Whole(m));
    var last := LengthBlock(LengthWords(|m|));
    var f := Compress(Compress(h, TailBlock(Tail(m))), last);
    var f' := Compress(Compress(h, TailBlock(last[..|Tail(m)|])), last);
    if HashBytes(f) == HashBytes(f') { HashReadsBack(f, f'); }
  }

  /** From the second digest on nothing changes any more. */
  lemma LaterDigestsAgree(m: Bytes)
    ensures AfterDigest(AfterDigest(m)) == AfterDigest(m)
  {
    var m' := AfterDigest(m);
    assert Whole(m') == Whole(m) && |Tail(m')| == |Tail(m)|;
    LastBlockIs(m);
    LastBlockIs(m');
    MessageKeptIff(m);
    hide LastBlock, LengthWords, Zeros, Whole, Tail;
  }
}
