/** The SHA1 class of Include/util/sha1.hpp: five chaining words, a block buffer and a two-word bit counter. */
module Sha1 {
  import opened Blocks
  import opened Sha1Spec
  import opened Wrappers

  /** `CircularShift`. */
  function CircularShift(bits: bv32, word: bv32): bv32
    requires 1 <= bits < 32
  {
    (word << bits) | (word >> (32 - bits))
  }

  /** On the amounts in use it is the rotation of FIPS 180-1. */
  lemma ShiftsRotate(w: bv32)
    ensures CircularShift(1, w) == Rotate1(w) && CircularShift(5, w) == Rotate5(w)
    ensures CircularShift(30, w) == Rotate30(w)
  {
  }

  lemma NextRound(start: Hash, text: Bytes, t: nat, h: Hash)
    requires |text| == 64 && h == Rounds(start, text, t)
    ensures Rounds(start, text, t + 1) ==
      Hash(Sum5(CircularShift(5, h.a), F(t, h.b, h.c, h.d), h.e, W(text, t), K(t)),
           h.a, CircularShift(30, h.b), h.c, h.d)
  {
    ShiftsRotate(h.a);
    ShiftsRotate(h.b);
    hide CircularShift, Rotate5, Rotate30, Sum5, F, K, W;
  }

  lemma NoRound(start: Hash, text: Bytes)
    requires |text| == 64
    ensures Rounds(start, text, 0) == start
  {
  }

  lemma FirstWords(text: Bytes, t: nat)
    requires |text| == 64 && t < 16
    ensures W(text, t) == Word(text[t * 4], text[t * 4 + 1], text[t * 4 + 2], text[t * 4 + 3])
  {
  }

  lemma NextWord(text: Bytes, t: nat)
    requires |text| == 64 && t >= 16
    ensures W(text, t) ==
      CircularShift(1, Xor4(W(text, t - 3), W(text, t - 8), W(text, t - 14), W(text, t - 16)))
  {
    ShiftsRotate(Xor4(W(text, t - 3), W(text, t - 8), W(text, t - 14), W(text, t - 16)));
    hide CircularShift, Rotate1, Xor4;
  }

  class SHA1 {
    const h: array<bv32>
    const block: array<bv8>
    var lengthLow: nat
    var lengthHigh: nat
    var index: nat
    var computed: bool
    var corrupted: bool
    /** The input since the last reset. */
    ghost var message: Bytes

    ghost predicate Shaped()
      reads this
    {
      h.Length == 5 && block.Length == 64
    }

    ghost function HashValue(): Hash
      reads this, h
      requires Shaped()
    {
      Hash(h[0], h[1], h[2], h[3], h[4])
    }

    /** Whole blocks are folded in, the rest waits in the buffer, the counter holds the bits. */
    ghost predicate Streaming()
      reads this, h, block
      requires Shaped()
    {
      var n := |message|;
      var q, r := n / 64, n % 64;
      && n < LIMIT && index == r && block[..r] == message[64 * q..] && HashValue() == Fold(message[..64 * q])
      && lengthLow == 8 * n % 0x1_0000_0000 && lengthHigh == 8 * n / 0x1_0000_0000
    }

    ghost predicate Valid()
      reads this, h, block
    {
      && Shaped() && index < 64
      && (!corrupted && computed ==> HashValue() == Digest(message))
      && (!corrupted && !computed ==> Streaming())
    }

    ghost function State(): Sha1Spec.State
      reads this
    {
      if corrupted then Corrupt else if computed then Closed(message) else Open(message)
    }

    constructor ()
      ensures Valid() && State() == Open([]) && fresh(h) && fresh(block)
    {
      h := new bv32[5];
      block := new bv8[64];
      new;
      Reset();
    }

    method Reset()
      requires Shaped()
      modifies this, h
      ensures Valid() && State() == Next(old(State()), Call.Reset)
    {
      hide Digest, Fold, Streaming;
      lengthLow := 0;
      lengthHigh := 0;
      index := 0;
      SetInitial();
      computed := false;
      corrupted := false;
      message := [];
      NothingTaken();
    }

    ghost method NothingTaken()
      requires Shaped() && message == [] && HashValue() == Fold([]) && lengthLow == lengthHigh == index == 0
      ensures Streaming()
    {
      hide Fold;
      assert |message| / 64 == 0 && |message| % 64 == 0;
      assert message[..64 * (|message| / 64)] == [];
      assert block[..index] == [];
    }

    method SetInitial()
      requires Shaped()
      modifies h
      ensures HashValue() == Fold([])
    {
      FoldNothing();
      hide Fold;
      h[0] := 0x67452301;
      h[1] := 0xEFCDAB89;
      h[2] := 0x98BADCFE;
      h[3] := 0x10325476;
      h[4] := 0xC3D2E1F0;
    }

    method Result() returns (ok: bool, digest: Hash)
      requires Valid()
      modifies this, h, block
      ensures Valid() && State() == Next(old(State()), Call.Result)
      ensures Reply(old(State())) == if ok then Some(digest) else None
    {
      hide Digest, Compress, Fold;
      digest := INITIAL;
      if corrupted {
        return false, digest;
      }
      if !computed {
        PadMessage();
        computed := true;
      }
      digest := Hash(h[0], h[1], h[2], h[3], h[4]);
      ok := true;
    }

    /** `Input`; the length is an `unsigned`. */
    method Input(data: Bytes)
      requires Valid() && |data| < 0x1_0000_0000
      modifies this, h, block
      ensures Valid() && State() == Next(old(State()), Call.Input(data))
    {
      hide Digest, Compress, Fold;
      assert !corrupted && !computed ==> |message| < LIMIT;
      hide Streaming;
      if |data| == 0 {
        return;
      }
      if computed || corrupted {
        corrupted := true;
        return;
      }
      var i := 0;
      ghost var before := message;
      while i < |data| && !corrupted
        invariant i <= |data| && Shaped() && index < 64 && !computed && message == before + data[..i]
        invariant if corrupted then |message| == LIMIT else Streaming() && |message| < LIMIT
      {
        TakeByte(data[i]);
        i := i + 1;
      }
      assert !corrupted ==> data[..i] == data;
    }

    /** One turn of the input loop. */
    method TakeByte(x: bv8)
      requires Shaped() && Streaming() && !corrupted
      modifies this, h, block
      ensures Shaped() && index < 64 && computed == old(computed) && message == old(message) + [x]
      ensures if |message| < LIMIT then !corrupted && Streaming() else corrupted && |message| == LIMIT
    {
      hide Compress, Fold;
      NextPosition(message, x);
      block[index] := x;
      index := index + 1;
      message := message + [x];
      assert block[..index] == old(block[..index]) + [x];
      CountByte(|message| - 1);
      if index == 64 {
        assert block[..64] == block[..];
        ProcessMessageBlock();
      }
    }

    /** Eight more bits; a counter that overflows corrupts the object. */
    method CountByte(ghost n: nat)
      requires n < LIMIT && !corrupted
      requires lengthLow == 8 * n % 0x1_0000_0000 && lengthHigh == 8 * n / 0x1_0000_0000
      modifies `lengthLow, `lengthHigh, `corrupted
      ensures corrupted <==> n + 1 == LIMIT
      ensures !corrupted ==> lengthLow == 8 * (n + 1) % 0x1_0000_0000 && lengthHigh == 8 * (n + 1) / 0x1_0000_0000
    {
      CountUp(n, lengthLow, lengthHigh);
      lengthLow := (lengthLow + 8) % 0x1_0000_0000;
      if lengthLow == 0 {
        lengthHigh := (lengthHigh + 1) % 0x1_0000_0000;
        if lengthHigh == 0 {
          corrupted := true;
        }
      }
    }

    /** The zero-filling loops of `PadMessage`. */
    method ZeroFill(limit: nat)
      requires Shaped() && index <= limit <= 64
      modifies block, `index
      ensures index == limit && block[..limit] == old(block[..index]) + Zeros(limit - old(index))
    {
      ghost var start, front := index, block[..index];
      while index < limit
        invariant start <= index <= limit && block[..index] == front + Zeros(index - start)
      {
        block[index] := 0;
        index := index + 1;
        assert block[..index] == block[..index - 1] + [0];
      }
    }

    method StoreLength()
      requires Shaped() && index == 56
      requires lengthLow == 8 * |message| % 0x1_0000_0000 && lengthHigh == 8 * |message| / 0x1_0000_0000
      modifies block
      ensures block[..] == old(block[..56]) + LengthWords(|message|)
    {
      hide Byte;
      WordBytes(lengthHigh);
      WordBytes(lengthLow);
      block[56] := Byte(lengthHigh / 0x100_0000);
      block[57] := Byte(lengthHigh / 0x1_0000);
      block[58] := Byte(lengthHigh / 0x100);
      block[59] := Byte(lengthHigh);
      block[60] := Byte(lengthLow / 0x100_0000);
      block[61] := Byte(lengthLow / 0x1_0000);
      block[62] := Byte(lengthLow / 0x100);
      block[63] := Byte(lengthLow);
      hide BigEndian;
    }

    /** The end of `PadMessage`: the length behind the zeros, and the last block. */
    method Finish(ghost front: Bytes)
      requires Shaped() && index == 56
      requires lengthLow == 8 * |message| % 0x1_0000_0000 && lengthHigh == 8 * |message| / 0x1_0000_0000
      requires |front| % 64 == 0 && HashValue() == Fold(front)
      requires message + Padding(|message|) == front + (block[..56] + LengthWords(|message|))
      modifies h, block, `index
      ensures HashValue() == Digest(message) && index == 0
    {
      hide Digest, Compress, Fold, LengthWords, Padding;
      StoreLength();
      DigestOfOne(message, front, block[..]);
      ProcessMessageBlock();
    }

    /** A block that is full inside the padding. */
    method NextBlock(ghost front: Bytes)
      requires Shaped() && |front| % 64 == 0 && HashValue() == Fold(front)
      modifies h, `index
      ensures HashValue() == Fold(front + block[..]) && index == 0
    {
      hide Fold, Compress;
      FoldBlock(front, block[..]);
      ProcessMessageBlock();
    }

    method PadMessage()
      requires Shaped() && Streaming()
      modifies h, block, `index
      ensures HashValue() == Digest(message) && index == 0
    {
      hide Digest, Compress, Fold, Zeros, LengthWords, Pad;
      ghost var m, q, r := message, |message| / 64, |message| % 64;
      ghost var front := m[..64 * q];
      if index > 55 {
        PadsInTwoBlocks(m, q, r, LengthWords(|m|));
        block[index] := 0x80;
        index := index + 1;
        assert block[..index] == m[64 * q..] + [0x80];
        ZeroFill(64);
        NextBlock(front);
        front := front + block[..];
        ZeroFill(56);
      } else {
        PadsInOneBlock(m, q, r, LengthWords(|m|));
        block[index] := 0x80;
        index := index + 1;
        assert block[..index] == m[64 * q..] + [0x80];
        ZeroFill(56);
      }
      Finish(front);
    }

    /** `ProcessMessageBlock`. */
    method ProcessMessageBlock()
      requires Shaped()
      modifies h, `index
      ensures HashValue() == Compress(old(HashValue()), block[..]) && index == 0
    {
      hide W, Rounds, Add;
      var w := FillSchedule();
      var a, b, c, d, e := EightyRounds(w, h[0], h[1], h[2], h[3], h[4], block[..]);
      h[0] := Add(h[0], a);
      h[1] := Add(h[1], b);
      h[2] := Add(h[2], c);
      h[3] := Add(h[3], d);
      h[4] := Add(h[4], e);
      index := 0;
    }

    method EightyRounds(w: array<bv32>, a0: bv32, b0: bv32, c0: bv32, d0: bv32, e0: bv32, ghost text: Bytes)
      returns (a: bv32, b: bv32, c: bv32, d: bv32, e: bv32)
      requires |text| == 64 && w.Length == 80 && forall t :: 0 <= t < 80 ==> w[t] == W(text, t)
      ensures Hash(a, b, c, d, e) == Rounds(Hash(a0, b0, c0, d0, e0), text, 80)
    {
      hide W, Rounds, CircularShift, Choose, Parity, Majority, Sum5;
      ghost var start := Hash(a0, b0, c0, d0, e0);
      a, b, c, d, e := a0, b0, c0, d0, e0;
      NoRound(start, text);
      for t := 0 to 20
        invariant Hash(a, b, c, d, e) == Rounds(start, text, t)
      {
        NextRound(start, text, t, Hash(a, b, c, d, e));
        var temp := Sum5(CircularShift(5, a), Choose(b, c, d), e, w[t], 0x5A827999);
        e, d, c, b, a := d, c, CircularShift(30, b), a, temp;
      }
      for t := 20 to 40
        invariant Hash(a, b, c, d, e) == Rounds(start, text, t)
      {
        NextRound(start, text, t, Hash(a, b, c, d, e));
        var temp := Sum5(CircularShift(5, a), Parity(b, c, d), e, w[t], 0x6ED9EBA1);
        e, d, c, b, a := d, c, CircularShift(30, b), a, temp;
      }
      for t := 40 to 60
        invariant Hash(a, b, c, d, e) == Rounds(start, text, t)
      {
        NextRound(start, text, t, Hash(a, b, c, d, e));
        var temp := Sum5(CircularShift(5, a), Majority(b, c, d), e, w[t], 0x8F1BBCDC);
        e, d, c, b, a := d, c, CircularShift(30, b), a, temp;
      }
      for t := 60 to 80
        invariant Hash(a, b, c, d, e) == Rounds(start, text, t)
      {
        NextRound(start, text, t, Hash(a, b, c, d, e));
        var temp := Sum5(CircularShift(5, a), Parity(b, c, d), e, w[t], 0xCA62C1D6);
        e, d, c, b, a := d, c, CircularShift(30, b), a, temp;
      }
    }

    method FillSchedule() returns (w: array<bv32>)
      requires Shaped()
      ensures fresh(w) && w.Length == 80 && forall t :: 0 <= t < 80 ==> w[t] == W(block[..], t)
    {
      hide W, CircularShift, Word, Xor4;
      ghost var text := block[..];
      w := new bv32[80];
      for t := 0 to 16
        invariant forall i :: 0 <= i < t ==> w[i] == W(text, i)
        modifies w
      {
        FirstWords(text, t);
        w[t] := Word(block[t * 4], block[t * 4 + 1], block[t * 4 + 2], block[t * 4 + 3]);
      }
      for t := 16 to 80
        invariant forall i :: 0 <= i < t ==> w[i] == W(text, i)
        modifies w
      {
        NextWord(text, t);
        w[t] := CircularShift(1, Xor4(w[t - 3], w[t - 8], w[t - 14], w[t - 16]));
      }
    }
  }
}
