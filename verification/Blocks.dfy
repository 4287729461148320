/** Messages in blocks of 64 bytes, as RFC 1321 and FIPS 180-1 both pad them. */
module Blocks {
  type Bytes = seq<bv8>

  function Byte(n: nat): bv8 { (n % 256) as bv8 }

  function Zeros(k: nat): (s: Bytes)
    ensures |s| == k && forall i :: 0 <= i < k ==> s[i] == 0
  {
    seq(k, _ => 0)
  }

  /** The whole blocks of a message. */
  function Whole(m: Bytes): (s: Bytes)
    ensures |s| % 64 == 0 && |s| <= |m|
  {
    m[..64 * (|m| / 64)]
  }

  /** What is left behind them. */
  function Tail(m: Bytes): (s: Bytes)
    ensures |s| == |m| % 64 && Whole(m) + s == m
  {
    m[64 * (|m| / 64)..]
  }

  /** A one bit, as few zeros as fill the last block, and the length of the message. */
  function Pad(n: nat, length: Bytes): Bytes { [0x80] + Zeros((119 - n % 64) % 64) + length }

  lemma PadIs(n: nat, q: nat, r: nat, length: Bytes)
    requires n == 64 * q + r && r < 64 && |length| == 8
    ensures Pad(n, length) == [0x80] + Zeros(if r < 56 then 55 - r else 119 - r) + length
    ensures n + |Pad(n, length)| == 64 * (if r < 56 then q + 1 else q + 2)
  {
    hide Zeros;
    assert n % 64 == r;
    assert (119 - r) % 64 == if r < 56 then 55 - r else 119 - r;
  }

  lemma Multiple(n: nat, k: nat)
    requires n == 64 * k
    ensures n % 64 == 0
  {
  }

  /** The padding completes the last block and takes no block more than it needs. */
  lemma PadFills(n: nat, length: Bytes)
    requires |length| == 8
    ensures (n + |Pad(n, length)|) % 64 == 0 && 9 <= |Pad(n, length)| < 73
  {
    hide Pad, Zeros;
    var q, r := n / 64, n % 64;
    PadIs(n, q, r, length);
    Multiple(n + |Pad(n, length)|, if r < 56 then q + 1 else q + 2);
  }

  /** A message that leaves room for the length in its last block. */
  lemma PadsInOneBlock(m: Bytes, q: nat, r: nat, length: Bytes)
    requires |m| == 64 * q + r && r < 56 && |length| == 8
    ensures m + Pad(|m|, length) == m[..64 * q] + (m[64 * q..] + [0x80] + Zeros(55 - r) + length)
  {
    PadIs(|m|, q, r, length);
    hide Zeros, Pad;
  }

  /** A message that does not. */
  lemma PadsInTwoBlocks(m: Bytes, q: nat, r: nat, length: Bytes)
    requires |m| == 64 * q + r && 56 <= r < 64 && |length| == 8
    ensures m + Pad(|m|, length) == m[..64 * q] + (m[64 * q..] + [0x80] + Zeros(63 - r)) + (Zeros(56) + length)
  {
    PadIs(|m|, q, r, length);
    assert Zeros(119 - r) == Zeros(63 - r) + Zeros(56);
    hide Zeros, Pad;
  }

  // ---------------------------------------------------------------- the blocks that end a padded message

  /** The one block that ends it when the tail leaves room for the length. */
  function OneEnd(tail: Bytes, length: Bytes): (s: Bytes)
    requires |tail| < 56 && |length| == 8
    ensures |s| == 64
  {
    tail + [0x80] + Zeros(55 - |tail|) + length
  }

  /** The block that a tail fills when it leaves no room, and the block behind it. */
  function TailBlock(tail: Bytes): (s: Bytes)
    requires |tail| < 64
    ensures |s| == 64
  {
    tail + [0x80] + Zeros(63 - |tail|)
  }

  function LengthBlock(length: Bytes): (s: Bytes)
    requires |length| == 8
    ensures |s| == 64
  {
    Zeros(56) + length
  }

  lemma EndsInOneBlock(m: Bytes, length: Bytes)
    requires |Tail(m)| < 56 && |length| == 8
    ensures m + Pad(|m|, length) == Whole(m) + OneEnd(Tail(m), length)
  {
    PadsInOneBlock(m, |m| / 64, |m| % 64, length);
    hide Zeros, Pad;
  }

  lemma EndsInTwoBlocks(m: Bytes, length: Bytes)
    requires |Tail(m)| >= 56 && |length| == 8
    ensures m + Pad(|m|, length) == Whole(m) + TailBlock(Tail(m)) + LengthBlock(length)
  {
    PadsInTwoBlocks(m, |m| / 64, |m| % 64, length);
    hide Zeros, Pad;
  }

  lemma NothingWhole(m: Bytes)
    requires |m| < 64
    ensures Whole(m) == [] && Tail(m) == m
  {
  }

  lemma OneEndBytes(tail: Bytes, length: Bytes)
    requires |tail| < 56 && |length| == 8
    ensures var s := OneEnd(tail, length);
            && (forall i :: 0 <= i < |tail| ==> s[i] == tail[i]) && s[|tail|] == 0x80
            && (forall i :: |tail| < i < 56 ==> s[i] == 0)
            && (forall i :: 0 <= i < 8 ==> s[56 + i] == length[i])
  {
  }
}
