/** The AES cipher of Include/util/aes.hpp on states, its inverse, and the wrapper for strings of any length.
    Byte `4 * i + j` of a state is row `i`, column `j`. The expanded key is arbitrary. */
module AesSpec {
  import opened AesTables
  import opened AesColumns

  type Bytes = seq<bv8>
  type State = s: Bytes | |s| == 16 witness seq(16, _ => 0)

  predicate Rounds(nr: nat) { nr == 10 || nr == 12 || nr == 14 }

  /** An expanded key has a 16-byte part for every round and one more. */
  predicate KeyFits(w: Bytes, nr: nat) { Rounds(nr) && |w| == 16 * (nr + 1) }

  function Load(block: State): State { seq(16, k requires 0 <= k < 16 => block[k / 4 + 4 * (k % 4)]) }

  function Store(s: State): State { seq(16, k requires 0 <= k < 16 => s[4 * (k % 4) + k / 4]) }

  function Xor(x: bv8, y: bv8): bv8 { x ^ y }

  function AddRoundKey(s: State, w: Bytes, r: nat): State
    requires 16 * r + 16 <= |w|
  {
    seq(16, k requires 0 <= k < 16 => Xor(s[k], w[16 * r + 4 * (k % 4) + k / 4]))
  }

  function SubBytes(s: State): State { seq(16, k requires 0 <= k < 16 => SBox(s[k])) }

  function InvSubBytes(s: State): State { seq(16, k requires 0 <= k < 16 => InvSBox(s[k])) }

  /** Row `i` rotated left by `n` places. */
  function RotateLeft(s: State, i: nat, n: nat): State
    requires i < 4
  {
    seq(16, k requires 0 <= k < 16 => if k / 4 == i then s[4 * i + (k % 4 + n) % 4] else s[k])
  }

  function ShiftRows(s: State): State { RotateLeft(RotateLeft(RotateLeft(s, 1, 1), 2, 2), 3, 3) }

  function InvShiftRows(s: State): State { RotateLeft(RotateLeft(RotateLeft(s, 1, 3), 2, 2), 3, 1) }

  function ColumnOf(s: State, j: nat): Column
    requires j < 4
  {
    Column(s[j], s[4 + j], s[8 + j], s[12 + j])
  }

  function Pick(c: Column, i: nat): bv8 {
    if i == 0 then c.b0 else if i == 1 then c.b1 else if i == 2 then c.b2 else c.b3
  }

  /** Every column multiplied by `a`. */
  function MultiplyColumns(a: Column, s: State): State
    requires Coefficients(a)
  {
    seq(16, k requires 0 <= k < 16 => Pick(CoefMult(a, ColumnOf(s, k % 4)), k / 4))
  }

  function MixColumns(s: State): State { MultiplyColumns(MIX, s) }

  function InvMixColumns(s: State): State { MultiplyColumns(INV_MIX, s) }

  function Round(s: State, w: Bytes, r: nat): State
    requires 16 * r + 16 <= |w|
  {
    AddRoundKey(MixColumns(ShiftRows(SubBytes(s))), w, r)
  }

  function LastRound(s: State, w: Bytes, r: nat): State
    requires 16 * r + 16 <= |w|
  {
    AddRoundKey(ShiftRows(SubBytes(s)), w, r)
  }

  /** The state after rounds 1 to `r`, mixing columns in each. */
  function Forward(s: State, w: Bytes, r: nat): State
    requires 16 * r + 16 <= |w|
  {
    if r == 0 then AddRoundKey(s, w, 0)
    else Round(Forward(s, w, r - 1), w, r)
  }

  function Cipher(block: State, w: Bytes, nr: nat): State
    requires KeyFits(w, nr)
  {
    Store(LastRound(Forward(Load(block), w, nr - 1), w, nr))
  }

  /** The state after the inverse rounds `nr - 1` down to `r`. */
  function Backward(s: State, w: Bytes, nr: nat, r: nat): State
    requires KeyFits(w, nr) && 1 <= r <= nr
    decreases nr - r
  {
    if r == nr then AddRoundKey(s, w, nr)
    else InvMixColumns(AddRoundKey(InvSubBytes(InvShiftRows(Backward(s, w, nr, r + 1))), w, r))
  }

  function InvCipher(block: State, w: Bytes, nr: nat): State
    requires KeyFits(w, nr)
  {
    Store(AddRoundKey(InvSubBytes(InvShiftRows(Backward(Load(block), w, nr, 1))), w, 0))
  }

  // ---------------------------------------------------------------- every step is undone

  lemma LoadStore(s: State)
    ensures Load(Store(s)) == s && Store(Load(s)) == s
  {
  }

  lemma XorTwice(x: bv8, k: bv8)
    ensures Xor(Xor(x, k), k) == x
  {
  }

  lemma AddRoundKeyTwice(s: State, w: Bytes, r: nat)
    requires 16 * r + 16 <= |w|
    ensures AddRoundKey(AddRoundKey(s, w, r), w, r) == s
  {
    forall k | 0 <= k < 16 ensures AddRoundKey(AddRoundKey(s, w, r), w, r)[k] == s[k] {
      XorTwice(s[k], w[16 * r + 4 * (k % 4) + k / 4]);
    }
  }

  lemma InvSubUndoesSub(s: State)
    ensures InvSubBytes(SubBytes(s)) == s
  {
    hide SBox, InvSBox;
    forall k | 0 <= k < 16 ensures InvSubBytes(SubBytes(s))[k] == s[k] {
      InvSBoxUndoesSBox(s[k]);
    }
  }

  lemma RotateTwice(s: State, i: nat, n: nat, m: nat)
    requires i < 4 && n + m == 4
    ensures RotateLeft(RotateLeft(s, i, n), i, m) == s
  {
  }

  lemma RotationsCommute(s: State, i: nat, n: nat, j: nat, m: nat)
    requires i < j < 4
    ensures RotateLeft(RotateLeft(s, i, n), j, m) == RotateLeft(RotateLeft(s, j, m), i, n)
  {
  }

  lemma InvShiftUndoesShift(s: State)
    ensures InvShiftRows(ShiftRows(s)) == s
  {
    var a := RotateLeft(s, 1, 1);
    var b := RotateLeft(a, 2, 2);
    RotationsCommute(b, 1, 3, 3, 3);
    RotationsCommute(a, 1, 3, 2, 2);
    RotateTwice(s, 1, 1, 3);
    RotationsCommute(RotateLeft(s, 2, 2), 2, 2, 3, 3);
    RotateTwice(s, 2, 2, 2);
    RotateTwice(s, 3, 3, 1);
    hide RotateLeft;
  }

  lemma ColumnOfProduct(a: Column, s: State, j: nat)
    requires Coefficients(a) && j < 4
    ensures ColumnOf(MultiplyColumns(a, s), j) == CoefMult(a, ColumnOf(s, j))
  {
    hide CoefMult, Coefficient;
    var m := MultiplyColumns(a, s);
    forall i | 0 <= i < 4 ensures m[4 * i + j] == Pick(CoefMult(a, ColumnOf(s, j)), i) {
      assert (4 * i + j) % 4 == j && (4 * i + j) / 4 == i;
    }
    assert m[4 * 0 + j] == m[j] && m[4 * 1 + j] == m[4 + j] && m[4 * 2 + j] == m[8 + j] && m[4 * 3 + j] == m[12 + j];
  }

  lemma PickFromColumn(s: State, k: nat)
    requires k < 16
    ensures s[k] == Pick(ColumnOf(s, k % 4), k / 4)
  {
    assert k == 4 * (k / 4) + k % 4;
  }

  lemma InvMixUndoesMixColumns(s: State)
    ensures InvMixColumns(MixColumns(s)) == s
  {
    var m := MixColumns(s);
    forall k | 0 <= k < 16 ensures InvMixColumns(m)[k] == s[k] {
      ColumnOfProduct(MIX, s, k % 4);
      InvMixUndoesMix(ColumnOf(s, k % 4));
      PickFromColumn(s, k);
      hide CoefMult, Pick, ColumnOf;
    }
  }

  /** Going back to round `r` meets the forward state in the middle of round `r`. */
  lemma {:induction false} Meet(s: State, w: Bytes, nr: nat, r: nat)
    requires KeyFits(w, nr) && 1 <= r <= nr
    ensures
      var last := AddRoundKey(ShiftRows(SubBytes(Forward(s, w, nr - 1))), w, nr);
      Backward(last, w, nr, r) == ShiftRows(SubBytes(Forward(s, w, r - 1)))
    decreases nr - r
  {
    hide AddRoundKey, SubBytes, InvSubBytes, ShiftRows, InvShiftRows, MixColumns, InvMixColumns;
    if r == nr {
      AddRoundKeyTwice(ShiftRows(SubBytes(Forward(s, w, nr - 1))), w, nr);
    } else {
      Meet(s, w, nr, r + 1);
      var before := ShiftRows(SubBytes(Forward(s, w, r - 1)));
      InvShiftUndoesShift(SubBytes(Forward(s, w, r)));
      InvSubUndoesSub(Forward(s, w, r));
      AddRoundKeyTwice(MixColumns(before), w, r);
      InvMixUndoesMixColumns(before);
    }
  }

  /** For every block, every expanded key and every number of rounds, the inverse cipher undoes the cipher. */
  lemma InvCipherUndoesCipher(block: State, w: Bytes, nr: nat)
    requires KeyFits(w, nr)
    ensures InvCipher(Cipher(block, w, nr), w, nr) == block
  {
    hide AddRoundKey, SubBytes, InvSubBytes, ShiftRows, InvShiftRows, Forward, Backward, Load, Store;
    var s := Load(block);
    LoadStore(block);
    LoadStore(AddRoundKey(ShiftRows(SubBytes(Forward(s, w, nr - 1))), w, nr));
    Meet(s, w, nr, 1);
    InvShiftUndoesShift(SubBytes(Forward(s, w, 0)));
    InvSubUndoesSub(Forward(s, w, 0));
    StartKey(s, w);
    AddRoundKeyTwice(s, w, 0);
  }

  lemma StartKey(s: State, w: Bytes)
    requires |w| >= 16
    ensures Forward(s, w, 0) == AddRoundKey(s, w, 0)
  {
  }

  // ---------------------------------------------------------------- strings

  /** The first `n` blocks, enciphered one by one. */
  function CipherBlocks(data: Bytes, w: Bytes, nr: nat, n: nat): (r: Bytes)
    requires KeyFits(w, nr) && 16 * n <= |data|
    ensures |r| == 16 * n
  {
    if n == 0 then []
    else CipherBlocks(data, w, nr, n - 1) + Cipher(data[16 * (n - 1)..16 * n], w, nr)
  }

  function InvCipherBlocks(data: Bytes, w: Bytes, nr: nat, n: nat): (r: Bytes)
    requires KeyFits(w, nr) && 16 * n <= |data|
    ensures |r| == 16 * n
  {
    if n == 0 then []
    else InvCipherBlocks(data, w, nr, n - 1) + InvCipher(data[16 * (n - 1)..16 * n], w, nr)
  }

  lemma NextBlock(data: Bytes, w: Bytes, nr: nat, n: nat)
    requires KeyFits(w, nr) && 16 * (n + 1) <= |data|
    ensures CipherBlocks(data, w, nr, n + 1)
         == CipherBlocks(data, w, nr, n) + Cipher(data[16 * n..16 * n + 16], w, nr)
    ensures InvCipherBlocks(data, w, nr, n + 1)
         == InvCipherBlocks(data, w, nr, n) + InvCipher(data[16 * n..16 * n + 16], w, nr)
  {
    hide Cipher, InvCipher;
  }

  lemma NoBlock(data: Bytes, w: Bytes, nr: nat)
    requires KeyFits(w, nr)
    ensures CipherBlocks(data, w, nr, 0) == InvCipherBlocks(data, w, nr, 0) == []
  {
  }

  /** How many bytes the last block lacks. */
  function Padding(len: nat): (pad: nat)
    ensures pad < 16 && (len + pad) % 16 == 0
  {
    if len % 16 > 0 then 16 - len % 16 else 0
  }

  function Padded(data: Bytes): (r: Bytes)
    ensures |r| % 16 == 0 && data <= r
  {
    data + seq(Padding(|data|), _ => 0)
  }

  /** The blocks, then one byte saying how many bytes were added. */
  function Encode(data: Bytes, w: Bytes, nr: nat): Bytes
    requires KeyFits(w, nr)
  {
    if data == [] then []
    else CipherBlocks(Padded(data), w, nr, |Padded(data)| / 16) + [Padding(|data|) as bv8]
  }

  /** The checks of the decoder. The last byte is a signed char: negative from 128 on. */
  predicate WellFormed(data: Bytes) {
    |data| >= 17 && |data| % 16 == 1 && LastByte(data) < 128 && LastByte(data) <= 15
  }

  function LastByte(data: Bytes): (n: nat)
    requires data != []
    ensures n < 256
  {
    data[|data| - 1] as nat
  }

  function Decode(data: Bytes, w: Bytes, nr: nat): Bytes
    requires KeyFits(w, nr)
  {
    if !WellFormed(data) then []
    else
      InvCipherBlocks(data, w, nr, BlockCount(data))[..|data| - 1 - LastByte(data)]
  }

  function BlockCount(data: Bytes): (n: nat)
    requires WellFormed(data)
    ensures 16 * n == |data| - 1
  {
    (|data| - 1) / 16
  }

  lemma {:induction false} BlocksRoundTrip(data: Bytes, coded: Bytes, w: Bytes, nr: nat, n: nat, m: nat)
    requires KeyFits(w, nr) && m <= n && 16 * n <= |data|
    requires CipherBlocks(data, w, nr, n) <= coded
    ensures InvCipherBlocks(coded, w, nr, m) == data[..16 * m]
  {
    hide Cipher, InvCipher;
    if m > 0 {
      BlocksRoundTrip(data, coded, w, nr, n, m - 1);
      BlockAt(data, w, nr, n, m);
      var block := data[16 * (m - 1)..16 * m];
      assert coded[16 * (m - 1)..16 * m] == Cipher(block, w, nr);
      InvCipherUndoesCipher(block, w, nr);
      assert data[..16 * (m - 1)] + block == data[..16 * m];
    }
  }

  lemma {:induction false} BlockAt(data: Bytes, w: Bytes, nr: nat, n: nat, m: nat)
    requires KeyFits(w, nr) && 1 <= m <= n && 16 * n <= |data|
    ensures CipherBlocks(data, w, nr, n)[16 * (m - 1)..16 * m] == Cipher(data[16 * (m - 1)..16 * m], w, nr)
  {
    hide Cipher;
    if m < n {
      BlockAt(data, w, nr, n - 1, m);
    }
  }

  /** Decoding undoes encoding for byte strings of every length; what the encoder produces from a non-empty
      string always passes the decoder's checks. */
  lemma DecodeUndoesEncode(data: Bytes, w: Bytes, nr: nat)
    requires KeyFits(w, nr)
    ensures Decode(Encode(data, w, nr), w, nr) == data
    ensures data != [] ==> WellFormed(Encode(data, w, nr))
    ensures |Encode(data, w, nr)| == if data == [] then 0 else |data| + Padding(|data|) + 1
  {
    hide CipherBlocks, InvCipherBlocks;
    if data != [] {
      var full, coded := Padded(data), Encode(data, w, nr);
      var n := |full| / 16;
      assert CipherBlocks(full, w, nr, n) <= coded;
      BlocksRoundTrip(full, coded, w, nr, n, n);
      assert full[..16 * n][..|data|] == data;
    }
  }

  /** Data that leave a block open are enciphered as if they ended in zeros: a further zero changes nothing but the
      count in the last byte. */
  lemma ZeroPadded(data: Bytes, w: Bytes, nr: nat)
    requires KeyFits(w, nr) && |data| % 16 != 0
    ensures var a, b := Encode(data, w, nr), Encode(data + [0], w, nr);
            && |a| == |b| && a[..|a| - 1] == b[..|a| - 1]
            && a[|a| - 1] as int == b[|a| - 1] as int + 1
  {
    var p, q := Padding(|data|), Padding(|data| + 1);
    hide CipherBlocks, Padding, Padded;
    SamePadded(data);
    ByteOf(p);
    ByteOf(q);
  }

  lemma SamePadded(data: Bytes)
    requires |data| % 16 != 0
    ensures Padded(data + [0]) == Padded(data) && Padding(|data|) == Padding(|data| + 1) + 1
  {
    var q := Padding(|data| + 1);
    var more: Bytes, fewer: Bytes := seq(q + 1, _ => 0), seq(q, _ => 0);
    assert Padding(|data|) == q + 1 && |data + [0]| == |data| + 1;
    hide Padding;
    assert Padded(data) == data + more && Padded(data + [0]) == data + [0] + fewer;
    hide Padded;
    assert more == [0] + fewer;
    Regrouped(data, [0], fewer);
  }

  lemma Regrouped(a: Bytes, b: Bytes, c: Bytes)
    ensures a + (b + c) == a + b + c
  {
  }

  lemma ByteOf(n: nat)
    requires n < 16
    ensures (n as bv8) as int == n
  {
  }

  /** What decoding leaves: nothing of data the encoder cannot have made, otherwise all blocks but the bytes that were
      added. */
  lemma DecodedLength(data: Bytes, w: Bytes, nr: nat)
    requires KeyFits(w, nr)
    ensures |Decode(data, w, nr)|
         == if |data| % 16 == 1 && |data| > 1 && data[|data| - 1] as int < 16
            then |data| - 1 - data[|data| - 1] as int else 0
  {
    hide InvCipherBlocks;
  }
}
