/** SHA-1 as FIPS 180-1 defines it: padding (section 4), words and functions (sections 3 and 5), digest (section 7). */
module Sha1Spec {
  import opened Blocks
  import opened WordBits
  import opened Wrappers

  datatype Hash = Hash(a: bv32, b: bv32, c: bv32, d: bv32, e: bv32)

  const INITIAL := Hash(0x67452301, 0xEFCDAB89, 0x98BADCFE, 0x10325476, 0xC3D2E1F0)

  // ---------------------------------------------------------------- one block

  function Word(b0: bv8, b1: bv8, b2: bv8, b3: bv8): bv32 {
    ((b0 as bv32) << 24) | ((b1 as bv32) << 16) | ((b2 as bv32) << 8) | (b3 as bv32)
  }

  function Rotate1(w: bv32): bv32 { w.RotateLeft(1) }

  function Rotate5(w: bv32): bv32 { w.RotateLeft(5) }

  function Rotate30(w: bv32): bv32 { w.RotateLeft(30) }

  function Xor4(a: bv32, b: bv32, c: bv32, d: bv32): bv32 { a ^ b ^ c ^ d }

  /** The word sequence W. */
  function W(block: Bytes, t: nat): bv32
    requires |block| == 64
  {
    if t < 16 then Word(block[4 * t], block[4 * t + 1], block[4 * t + 2], block[4 * t + 3])
    else Rotate1(Xor4(W(block, t - 3), W(block, t - 8), W(block, t - 14), W(block, t - 16)))
  }

  function Choose(b: bv32, c: bv32, d: bv32): bv32 { Or(And(b, c), And(Not(b), d)) }

  function Parity(b: bv32, c: bv32, d: bv32): bv32 { Xor(Xor(b, c), d) }

  function Majority(b: bv32, c: bv32, d: bv32): bv32 { Or(Or(And(b, c), And(b, d)), And(c, d)) }

  /** The logical functions, by round. */
  function F(t: nat, b: bv32, c: bv32, d: bv32): bv32 {
    if t < 20 then Choose(b, c, d)
    else if 40 <= t < 60 then Majority(b, c, d)
    else Parity(b, c, d)
  }

  function K(t: nat): bv32 {
    if t < 20 then 0x5A827999 else if t < 40 then 0x6ED9EBA1 else if t < 60 then 0x8F1BBCDC else 0xCA62C1D6
  }

  /** The three functions, bit by bit: a choice, the parity and what most of the three are. */
  lemma FunctionsByBit(b: bv32, c: bv32, d: bv32, i: bv32)
    requires i < 32
    ensures BitSet(Choose(b, c, d), i) <==> if BitSet(b, i) then BitSet(c, i) else BitSet(d, i)
    ensures BitSet(Parity(b, c, d), i) <==> (BitSet(b, i) != (BitSet(c, i) != BitSet(d, i)))
    ensures BitSet(Majority(b, c, d), i) <==> if BitSet(b, i) == BitSet(c, i) then BitSet(b, i) else BitSet(d, i)
  {
    hide BitSet, And, Or, Xor, Not;
    NotBit(b, i);
    AndBit(b, c, i);
    AndBit(Not(b), d, i);
    OrBit(And(b, c), And(Not(b), d), i);
    XorBit(b, c, i);
    XorBit(Xor(b, c), d, i);
    AndBit(b, d, i);
    AndBit(c, d, i);
    OrBit(And(b, c), And(b, d), i);
    OrBit(Or(And(b, c), And(b, d)), And(c, d), i);
  }

  /** The constants are the square roots of 2, 3, 5 and 10, cut to 30 binary places. */
  lemma ConstantsAreRoots(t: nat)
    requires t < 80
    ensures var n := if t < 20 then 2 else if t < 40 then 3 else if t < 60 then 5 else 10;
            var k := K(t) as nat;
            k * k <= n * 0x1000_0000_0000_0000 < (k + 1) * (k + 1)
  {
  }

  function Add(a: bv32, b: bv32): bv32 { a + b }

  function Sum5(a: bv32, b: bv32, c: bv32, d: bv32, e: bv32): bv32 { a + b + c + d + e }

  function Round(h: Hash, t: nat, w: bv32): Hash {
    Hash(Sum5(Rotate5(h.a), F(t, h.b, h.c, h.d), h.e, w, K(t)), h.a, Rotate30(h.b), h.c, h.d)
  }

  function Rounds(h: Hash, block: Bytes, t: nat): Hash
    requires |block| == 64
  {
    if t == 0 then h else Round(Rounds(h, block, t - 1), t - 1, W(block, t - 1))
  }

  function Compress(h: Hash, block: Bytes): Hash
    requires |block| == 64
  {
    var r := Rounds(h, block, 80);
    Hash(Add(h.a, r.a), Add(h.b, r.b), Add(h.c, r.c), Add(h.d, r.d), Add(h.e, r.e))
  }

  // ---------------------------------------------------------------- the whole message

  /** The block function folded over a text of whole blocks. */
  function Fold(s: Bytes): Hash
    requires |s| % 64 == 0
  {
    if s == [] then INITIAL else Compress(Fold(s[..|s| - 64]), s[|s| - 64..])
  }

  /** `k` bytes, most significant first. */
  function BigEndian(n: nat, k: nat): (s: Bytes)
    ensures |s| == k
  {
    if k == 0 then [] else BigEndian(n / 256, k - 1) + [Byte(n)]
  }

  /** The two words of the length in bits. */
  function LengthWords(n: nat): (s: Bytes)
    ensures |s| == 8
  {
    BigEndian(8 * n / 0x1_0000_0000, 4) + BigEndian(8 * n % 0x1_0000_0000, 4)
  }

  function Padding(n: nat): Bytes { Pad(n, LengthWords(n)) }

  function Digest(m: Bytes): Hash {
    PadFills(|m|, LengthWords(|m|));
    Fold(m + Padding(|m|))
  }

  /** Messages must stay below 2^64 bits. */
  const LIMIT: nat := 0x2000_0000_0000_0000

  // ---------------------------------------------------------------- what the object promises

  /** Taking input, done after a result, or corrupted. */
  datatype State = Open(message: Bytes) | Closed(message: Bytes) | Corrupt

  datatype Call = Reset | Input(data: Bytes) | Result

  function Take(s: State, data: Bytes): State {
    if data == [] then s
    else if s.Open? && |s.message| + |data| < LIMIT then Open(s.message + data)
    else Corrupt
  }

  function Next(s: State, c: Call): State {
    match c
    case Reset => Open([])
    case Input(data) => Take(s, data)
    case Result => if s.Open? then Closed(s.message) else s
  }

  /** What `Result` hands out. */
  function Reply(s: State): Option<Hash> {
    if s.Corrupt? then None else Some(Digest(s.message))
  }

  function Run(s: State, calls: seq<Call>): State {
    if calls == [] then s else Next(Run(s, calls[..|calls| - 1]), calls[|calls| - 1])
  }

  // ---------------------------------------------------------------- whole runs

  function Message(parts: seq<Bytes>): Bytes {
    if parts == [] then [] else Message(parts[..|parts| - 1]) + parts[|parts| - 1]
  }

  function Inputs(parts: seq<Bytes>): seq<Call> { seq(|parts|, i requires 0 <= i < |parts| => Input(parts[i])) }

  lemma {:induction false} InputsRun(parts: seq<Bytes>)
    ensures Run(Open([]), Inputs(parts)) == if |Message(parts)| < LIMIT then Open(Message(parts)) else Corrupt
    decreases |parts|
  {
    if parts != [] {
      var k := |parts| - 1;
      InputsRun(parts[..k]);
      assert Inputs(parts)[..k] == Inputs(parts[..k]);
      assert parts[k] == [] ==> Message(parts) == Message(parts[..k]);
    }
  }

  /** However a message is split over `Input` calls, `Result` is its digest, exactly below the length limit. */
  lemma StreamingDigest(before: State, parts: seq<Bytes>)
    ensures Reply(Run(before, [Reset] + Inputs(parts)))
         == if |Message(parts)| < LIMIT then Some(Digest(Message(parts))) else None
  {
    hide Digest;
    RunAppend(before, [Reset], Inputs(parts));
    assert [Reset][..0] == [];
    assert Run(before, [Reset]) == Open([]);
    InputsRun(parts);
  }

  lemma {:induction false} RunAppend(s: State, a: seq<Call>, b: seq<Call>)
    ensures Run(s, a + b) == Run(Run(s, a), b)
    decreases |b|
  {
    if b == [] {
      assert a + b == a;
    } else {
      var k := |b| - 1;
      assert (a + b)[..|a| + k] == a + b[..k];
      RunAppend(s, a, b[..k]);
    }
  }

  predicate NoReset(calls: seq<Call>) { Reset !in calls }

  /** Between a result and the next reset the digest stays the same as long as nothing is fed, and no result comes
      once something was. */
  lemma {:induction false} AfterResult(s: State, calls: seq<Call>)
    requires !s.Open? && NoReset(calls)
    ensures Run(s, calls) == if forall c <- calls :: c.Input? ==> c.data == [] then s else Corrupt
    decreases |calls|
  {
    if calls != [] {
      var k := |calls| - 1;
      AfterResult(s, calls[..k]);
      assert calls == calls[..k] + [calls[k]];
    }
  }

  /** Repeated results agree. */
  lemma ResultsAgree(s: State, n: nat)
    ensures Reply(Run(Next(s, Result), seq(n, _ => Result))) == Reply(s)
  {
    hide Digest;
    var calls := seq(n, _ => Result);
    AfterResult(Next(s, Result), calls);
  }

  /** Feeding after a result corrupts the object for every later result until a reset. */
  lemma FeedingAfterResultCorrupts(s: State, data: Bytes, later: seq<Call>)
    requires data != [] && NoReset(later)
    ensures Reply(Run(Next(Next(s, Result), Input(data)), later)) == None
  {
    AfterResult(Corrupt, later);
  }

  // ---------------------------------------------------------------- folding piece by piece

  lemma FoldNothing()
    ensures Fold([]) == INITIAL
  {
  }

  lemma FoldBlock(s: Bytes, block: Bytes)
    requires |s| % 64 == 0 && |block| == 64
    ensures Fold(s + block) == Compress(Fold(s), block)
  {
    hide Compress;
    assert (s + block)[..|s|] == s && (s + block)[|s|..] == block;
  }

  lemma DigestOfOne(m: Bytes, front: Bytes, block: Bytes)
    requires |block| == 64 && |front| % 64 == 0
    ensures m + Padding(|m|) == front + block ==> Digest(m) == Compress(Fold(front), block)
  {
    FoldBlock(front, block);
    hide Fold, Compress, Padding;
  }

  /** Where one more byte leaves the whole blocks and the rest. */
  lemma NextPosition(m: Bytes, x: bv8)
    ensures var q, r := |m| / 64, |m| % 64;
            var m' := m + [x];
            if r < 63
            then |m'| / 64 == q && |m'| % 64 == r + 1
                 && m'[..64 * q] == m[..64 * q] && m'[64 * q..] == m[64 * q..] + [x]
            else |m'| / 64 == q + 1 && |m'| % 64 == 0 && m'[64 * (q + 1)..] == []
                 && Fold(m'[..64 * (q + 1)]) == Compress(Fold(m[..64 * q]), m[64 * q..] + [x])
  {
    hide Fold, Compress;
    var q, r := |m| / 64, |m| % 64;
    var m' := m + [x];
    if r == 63 {
      assert m'[..64 * (q + 1)] == m[..64 * q] + (m[64 * q..] + [x]);
      FoldBlock(m[..64 * q], m[64 * q..] + [x]);
    }
  }

  // ---------------------------------------------------------------- the counter

  /** Eight more bits in a counter of two words. */
  lemma CountUp(n: nat, low: nat, high: nat)
    requires n < LIMIT && low == 8 * n % 0x1_0000_0000 && high == 8 * n / 0x1_0000_0000
    ensures var low' := (low + 8) % 0x1_0000_0000;
            var high' := if low' == 0 then (high + 1) % 0x1_0000_0000 else high;
            if n + 1 < LIMIT
            then low' == 8 * (n + 1) % 0x1_0000_0000 && high' == 8 * (n + 1) / 0x1_0000_0000
                 && !(low' == 0 && high' == 0)
            else low' == 0 && high' == 0
  {
    var k := n - 0x2000_0000 * high;
    assert low == 8 * k && k < 0x2000_0000;
    if k + 1 == 0x2000_0000 {
      assert 8 * (n + 1) == 0x1_0000_0000 * (high + 1);
    }
  }

  /** The four bytes of a word, as shifts and masks take them. */
  lemma WordBytes(w: nat)
    ensures BigEndian(w, 4) == [Byte(w / 0x100_0000), Byte(w / 0x1_0000), Byte(w / 0x100), Byte(w)]
  {
    hide Byte;
    Quarters(w);
    OneByte(w, 3);
    OneByte(w / 0x100, 2);
    OneByte(w / 0x1_0000, 1);
    OneByte(w / 0x100_0000, 0);
  }

  lemma OneByte(n: nat, k: nat)
    ensures BigEndian(n, k + 1) == BigEndian(n / 256, k) + [Byte(n)]
  {
  }

  lemma Quarters(n: nat)
    ensures n / 256 == n / 0x100 && n / 0x100 / 256 == n / 0x1_0000
    ensures n / 0x1_0000 / 256 == n / 0x100_0000
  {
  }
}
