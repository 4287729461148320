/** The cipher as the C++ code runs it: nested loops that rewrite a 16-byte state in place. Every method is
    proved against the functions of module AesSpec. */
module AesImpl {
  import opened AesTables
  import opened AesColumns
  import Spec = AesSpec

  type Bytes = seq<bv8>

  /** Where row `i`, column `j` of the state is. */
  function At(i: nat, j: nat): (k: nat)
    ensures i < 4 && j < 4 ==> k < 16
  {
    4 * i + j
  }

  method CoefMult(a: array<bv8>, b: array<bv8>, d: array<bv8>)
    requires a.Length == b.Length == d.Length == 4
    requires forall i :: 0 <= i < 4 ==> Coefficient(a[i])
    requires d != a && d != b
    modifies d
    ensures Column(d[0], d[1], d[2], d[3])
         == AesColumns.CoefMult(Column(a[0], a[1], a[2], a[3]), Column(b[0], b[1], b[2], b[3]))
  {
    hide Gmult, Coefficient, Xor4;
    d[0] := Xor4(Gmult(a[0], b[0]), Gmult(a[3], b[1]), Gmult(a[2], b[2]), Gmult(a[1], b[3]));
    d[1] := Xor4(Gmult(a[1], b[0]), Gmult(a[0], b[1]), Gmult(a[3], b[2]), Gmult(a[2], b[3]));
    d[2] := Xor4(Gmult(a[2], b[0]), Gmult(a[1], b[1]), Gmult(a[0], b[2]), Gmult(a[3], b[3]));
    d[3] := Xor4(Gmult(a[3], b[0]), Gmult(a[2], b[1]), Gmult(a[1], b[2]), Gmult(a[0], b[3]));
  }

  /** States that agree in every row and column are the same. */
  lemma SameState(x: Bytes, y: Bytes)
    requires |x| == |y| == 16
    requires forall i, j :: 0 <= i < 4 && 0 <= j < 4 ==> x[At(i, j)] == y[At(i, j)]
    ensures x == y
  {
    forall k | 0 <= k < 16 ensures x[k] == y[k] {
      assert k == At(k / 4, k % 4);
    }
  }

  lemma RoundKeyColumn(s: Spec.State, w: Bytes, r: nat, c: nat)
    requires 16 * r + 16 <= |w| && c < 4
    ensures
      var m, k := Spec.AddRoundKey(s, w, r), 16 * r + 4 * c;
      && m[At(0, c)] == Spec.Xor(s[At(0, c)], w[k + 0]) && m[At(1, c)] == Spec.Xor(s[At(1, c)], w[k + 1])
      && m[At(2, c)] == Spec.Xor(s[At(2, c)], w[k + 2]) && m[At(3, c)] == Spec.Xor(s[At(3, c)], w[k + 3])
  {
    hide Spec.Xor;
    forall i | 0 <= i < 4 ensures At(i, c) % 4 == c && At(i, c) / 4 == i {
    }
  }

  /** The columns before `c` are those of `m`, the others those of `s`. */
  ghost predicate Upto(x: Bytes, m: Bytes, s: Bytes, c: nat)
    requires |x| == |m| == |s| == 16
  {
    forall k :: 0 <= k < 16 ==> x[k] == if k % 4 < c then m[k] else s[k]
  }

  function WithColumn(x: Bytes, m: Bytes, c: nat): (y: Bytes)
    requires |x| == |m| == 16 && c < 4
    ensures |y| == 16
  {
    x[c := m[c]][4 + c := m[4 + c]][8 + c := m[8 + c]][12 + c := m[12 + c]]
  }

  lemma ColumnAdded(x: Bytes, m: Bytes, s: Bytes, c: nat)
    requires |x| == |m| == |s| == 16 && c < 4 && Upto(x, m, s, c)
    ensures Upto(WithColumn(x, m, c), m, s, c + 1)
  {
    var y := WithColumn(x, m, c);
    forall k | 0 <= k < 16 ensures y[k] == if k % 4 < c + 1 then m[k] else s[k] {
      assert k % 4 == c <==> k == c || k == 4 + c || k == 8 + c || k == 12 + c;
    }
  }

  lemma NotYetAdded(x: Bytes, m: Bytes, s: Bytes, c: nat)
    requires |x| == |m| == |s| == 16 && c < 4 && Upto(x, m, s, c)
    ensures x[c] == s[c] && x[4 + c] == s[4 + c] && x[8 + c] == s[8 + c] && x[12 + c] == s[12 + c]
  {
    assert c % 4 == (4 + c) % 4 == (8 + c) % 4 == (12 + c) % 4 == c;
  }

  /** Four bytes of the key from `k` on, added to column `c`. */
  method AddKeyColumn(state: array<bv8>, w: array<bv8>, k: nat, c: nat)
    requires state.Length == 16 && k + 4 <= w.Length && c < 4 && state != w
    modifies state
    ensures var s := old(state[..]);
            state[..] == s[c := Spec.Xor(s[c], w[k])][4 + c := Spec.Xor(s[4 + c], w[k + 1])]
                          [8 + c := Spec.Xor(s[8 + c], w[k + 2])][12 + c := Spec.Xor(s[12 + c], w[k + 3])]
  {
    hide Spec.Xor;
    state[At(0, c)] := Spec.Xor(state[At(0, c)], w[k + 0]);
    state[At(1, c)] := Spec.Xor(state[At(1, c)], w[k + 1]);
    state[At(2, c)] := Spec.Xor(state[At(2, c)], w[k + 2]);
    state[At(3, c)] := Spec.Xor(state[At(3, c)], w[k + 3]);
  }

  method AddRoundKey(state: array<bv8>, w: array<bv8>, r: nat)
    requires state.Length == 16 && 16 * r + 16 <= w.Length && state != w
    modifies state
    ensures state[..] == Spec.AddRoundKey(old(state[..]), w[..], r)
  {
    hide Spec.Xor, Spec.AddRoundKey;
    ghost var s, key := state[..], w[..];
    ghost var m := Spec.AddRoundKey(s, key, r);
    for c := 0 to 4
      invariant Upto(state[..], m, s, c)
    {
      ghost var x := state[..];
      RoundKeyColumn(s, key, r, c);
      ColumnAdded(x, m, s, c);
      assert x[c] == s[c] && x[4 + c] == s[4 + c] && x[8 + c] == s[8 + c] && x[12 + c] == s[12 + c] by {
        NotYetAdded(x, m, s, c);
      }
      hide Upto;
      AddKeyColumn(state, w, 16 * r + 4 * c, c);
      assert state[..] == WithColumn(x, m, c);
    }
    assert state[..] == m;
  }

  method GatherColumn(state: array<bv8>, j: nat, col: array<bv8>)
    requires state.Length == 16 && col.Length == 4 && j < 4 && state != col
    modifies col
    ensures Column(col[0], col[1], col[2], col[3]) == Spec.ColumnOf(state[..], j)
  {
    for i := 0 to 4
      invariant forall k :: 0 <= k < i ==> col[k] == state[At(k, j)]
    {
      col[i] := state[At(i, j)];
    }
    assert state[At(0, j)] == state[j] && state[At(1, j)] == state[4 + j];
    assert state[At(2, j)] == state[8 + j] && state[At(3, j)] == state[12 + j];
  }

  method ScatterColumn(state: array<bv8>, j: nat, res: array<bv8>)
    requires state.Length == 16 && res.Length == 4 && j < 4 && state != res
    modifies state
    ensures forall i :: 0 <= i < 4 ==> state[At(i, j)] == res[i]
    ensures forall i, l :: 0 <= i < 4 && 0 <= l < 4 && l != j ==> state[At(i, l)] == old(state[At(i, l)])
  {
    for i := 0 to 4
      invariant forall k :: 0 <= k < i ==> state[At(k, j)] == res[k]
      invariant forall k, l :: 0 <= k < 4 && 0 <= l < 4 && l != j ==> state[At(k, l)] == old(state[At(k, l)])
    {
      state[At(i, j)] := res[i];
    }
  }

  /** The body shared by mix_columns and inv_mix_columns, which differ in the coefficients only. */
  method MultiplyColumns(state: array<bv8>, a: array<bv8>, ghost coefficients: Column)
    requires state.Length == 16 && a.Length == 4 && state != a
    requires coefficients == Column(a[0], a[1], a[2], a[3]) && Coefficients(coefficients)
    modifies state
    ensures state[..] == Spec.MultiplyColumns(coefficients, old(state[..]))
  {
    hide AesColumns.CoefMult, Spec.Pick, Spec.MultiplyColumns, Coefficient;
    ghost var s: Spec.State := state[..];
    ghost var m := Spec.MultiplyColumns(coefficients, s);
    var col, res := new bv8[4], new bv8[4];
    for j := 0 to 4
      invariant a[..] == old(a[..])
      invariant forall i, l :: 0 <= i < 4 && 0 <= l < 4 ==>
        state[At(i, l)] == if l < j then m[At(i, l)] else s[At(i, l)]
    {
      GatherColumn(state, j, col);
      SameColumn(state[..], s, j);
      CoefMult(a, col, res);
      ProductColumn(coefficients, s, j, Column(res[0], res[1], res[2], res[3]));
      ScatterColumn(state, j, res);
      assert forall i :: 0 <= i < 4 ==> state[At(i, j)] == m[At(i, j)];
    }
    SameState(state[..], m);
  }

  lemma SameColumn(x: Spec.State, y: Spec.State, j: nat)
    requires j < 4 && forall i :: 0 <= i < 4 ==> x[At(i, j)] == y[At(i, j)]
    ensures Spec.ColumnOf(x, j) == Spec.ColumnOf(y, j)
  {
    assert x[At(0, j)] == y[j] && x[At(1, j)] == y[4 + j] && x[At(2, j)] == y[8 + j] && x[At(3, j)] == y[12 + j];
  }

  lemma ProductColumn(a: Column, s: Spec.State, j: nat, product: Column)
    requires Coefficients(a) && j < 4 && product == AesColumns.CoefMult(a, Spec.ColumnOf(s, j))
    ensures
      var m := Spec.MultiplyColumns(a, s);
      m[At(0, j)] == product.b0 && m[At(1, j)] == product.b1 && m[At(2, j)] == product.b2 && m[At(3, j)] == product.b3
  {
    hide AesColumns.CoefMult, Coefficient, Spec.MultiplyColumns;
    Spec.ColumnOfProduct(a, s, j);
    var m := Spec.MultiplyColumns(a, s);
    assert Spec.ColumnOf(m, j) == Column(m[j], m[4 + j], m[8 + j], m[12 + j]);
    hide Spec.ColumnOf;
    assert At(0, j) == j && At(1, j) == 4 + j && At(2, j) == 8 + j && At(3, j) == 12 + j;
  }

  method MixColumns(state: array<bv8>)
    requires state.Length == 16
    modifies state
    ensures state[..] == Spec.MixColumns(old(state[..]))
  {
    var a := new bv8[4] [0x02, 0x01, 0x01, 0x03];
    MultiplyColumns(state, a, MIX);
  }

  method InvMixColumns(state: array<bv8>)
    requires state.Length == 16
    modifies state
    ensures state[..] == Spec.InvMixColumns(old(state[..]))
  {
    var a := new bv8[4] [0x0e, 0x09, 0x0d, 0x0b];
    MultiplyColumns(state, a, INV_MIX);
  }

  method SubBytes(state: array<bv8>)
    requires state.Length == 16
    modifies state
    ensures state[..] == Spec.SubBytes(old(state[..]))
  {
    hide SBox;
    ghost var s := state[..];
    for i := 0 to 4
      invariant forall k :: 0 <= k < 16 ==> state[k] == if k < 4 * i then SBox(s[k]) else s[k]
    {
      for j := 0 to 4
        invariant forall k :: 0 <= k < 16 ==> state[k] == if k < 4 * i + j then SBox(s[k]) else s[k]
      {
        state[4 * i + j] := SBox(state[4 * i + j]);
      }
    }
  }

  method InvSubBytes(state: array<bv8>)
    requires state.Length == 16
    modifies state
    ensures state[..] == Spec.InvSubBytes(old(state[..]))
  {
    hide InvSBox;
    ghost var s := state[..];
    for i := 0 to 4
      invariant forall k :: 0 <= k < 16 ==> state[k] == if k < 4 * i then InvSBox(s[k]) else s[k]
    {
      for j := 0 to 4
        invariant forall k :: 0 <= k < 16 ==> state[k] == if k < 4 * i + j then InvSBox(s[k]) else s[k]
      {
        state[4 * i + j] := InvSBox(state[4 * i + j]);
      }
    }
  }

  // ---------------------------------------------------------------- rows

  /** `n` places on in a row. */
  function Around(j: nat, n: nat): (k: nat)
    ensures k < 4
  {
    (j + n) % 4
  }

  lemma RotatedAt(s: Spec.State, i: nat, n: nat, l: nat, j: nat)
    requires i < 4 && l < 4 && j < 4
    ensures Spec.RotateLeft(s, i, n)[At(l, j)] == if l == i then s[At(i, Around(j, n))] else s[At(l, j)]
  {
    assert At(l, j) / 4 == l && At(l, j) % 4 == j;
  }

  lemma Turns(j: nat, m: nat, n: nat)
    ensures Around(Around(j, m), n) == Around(j, n + m)
  {
  }

  lemma RotateMore(s: Spec.State, i: nat, n: nat, m: nat)
    requires i < 4
    ensures Spec.RotateLeft(Spec.RotateLeft(s, i, n), i, m) == Spec.RotateLeft(s, i, n + m)
  {
    hide Spec.RotateLeft, Around, At;
    var a, b := Spec.RotateLeft(Spec.RotateLeft(s, i, n), i, m), Spec.RotateLeft(s, i, n + m);
    forall l, j | 0 <= l < 4 && 0 <= j < 4 ensures a[At(l, j)] == b[At(l, j)] {
      RotatedAt(Spec.RotateLeft(s, i, n), i, m, l, j);
      RotatedAt(s, i, n + m, l, j);
      if l == i {
        RotatedAt(s, i, n, i, Around(j, m));
        Turns(j, m, n);
      } else {
        RotatedAt(s, i, n, l, j);
      }
    }
    SameState(a, b);
  }

  lemma RotateNone(s: Spec.State, i: nat)
    requires i < 4
    ensures Spec.RotateLeft(s, i, 0) == s
  {
  }

  /** One place to the left: the first byte of the row goes to its end. */
  method RotateRowLeft(state: array<bv8>, i: nat)
    requires state.Length == 16 && i < 4
    modifies state
    ensures state[..] == Spec.RotateLeft(old(state[..]), i, 1)
  {
    ghost var s := state[..];
    var tmp := state[At(i, 0)];
    for k := 1 to 4
      invariant forall j :: 0 <= j < k - 1 ==> state[At(i, j)] == s[At(i, j + 1)]
      invariant forall l, j :: 0 <= l < 4 && 0 <= j < 4 && (l != i || j >= k - 1) ==> state[At(l, j)] == s[At(l, j)]
    {
      state[At(i, k - 1)] := state[At(i, k)];
    }
    state[At(i, 3)] := tmp;
    forall l, j | 0 <= l < 4 && 0 <= j < 4 ensures state[At(l, j)] == Spec.RotateLeft(s, i, 1)[At(l, j)] {
      RotatedAt(s, i, 1, l, j);
    }
    SameState(state[..], Spec.RotateLeft(s, i, 1));
  }

  lemma ThreeOn(j: nat)
    requires j < 4
    ensures (j + 3) % 4 == if j == 0 then 3 else j - 1
  {
  }

  /** One place to the right, which is three to the left. */
  method RotateRowRight(state: array<bv8>, i: nat)
    requires state.Length == 16 && i < 4
    modifies state
    ensures state[..] == Spec.RotateLeft(old(state[..]), i, 3)
  {
    ghost var s := state[..];
    var tmp := state[At(i, 3)];
    var k: nat := 3;
    while k > 0
      invariant 0 <= k <= 3
      invariant forall j :: k < j < 4 ==> state[At(i, j)] == s[At(i, j - 1)]
      invariant forall l, j :: 0 <= l < 4 && 0 <= j < 4 && (l != i || j <= k) ==> state[At(l, j)] == s[At(l, j)]
    {
      state[At(i, k)] := state[At(i, k - 1)];
      k := k - 1;
    }
    state[At(i, 0)] := tmp;
    hide Spec.RotateLeft;
    forall l, j | 0 <= l < 4 && 0 <= j < 4 ensures state[At(l, j)] == Spec.RotateLeft(s, i, 3)[At(l, j)] {
      RotatedAt(s, i, 3, l, j);
      ThreeOn(j);
    }
    SameState(state[..], Spec.RotateLeft(s, i, 3));
  }

  method ShiftRow(state: array<bv8>, i: nat)
    requires state.Length == 16 && i < 4
    modifies state
    ensures state[..] == Spec.RotateLeft(old(state[..]), i, i)
  {
    hide Spec.RotateLeft;
    var s := 0;
    RotateNone(state[..], i);
    while s < i
      invariant s <= i && state[..] == Spec.RotateLeft(old(state[..]), i, s)
    {
      RotateRowLeft(state, i);
      RotateMore(old(state[..]), i, s, 1);
      s := s + 1;
    }
  }

  method InvShiftRow(state: array<bv8>, i: nat)
    requires state.Length == 16 && i < 4
    modifies state
    ensures state[..] == Spec.RotateLeft(old(state[..]), i, 3 * i)
  {
    hide Spec.RotateLeft;
    var s := 0;
    RotateNone(state[..], i);
    while s < i
      invariant s <= i && state[..] == Spec.RotateLeft(old(state[..]), i, 3 * s)
    {
      RotateRowRight(state, i);
      RotateMore(old(state[..]), i, 3 * s, 3);
      s := s + 1;
    }
  }

  method ShiftRows(state: array<bv8>)
    requires state.Length == 16
    modifies state
    ensures state[..] == Spec.ShiftRows(old(state[..]))
  {
    hide Spec.RotateLeft;
    ghost var s := state[..];
    for i := 1 to 4
      invariant state[..] ==
        if i == 1 then s
        else if i == 2 then Spec.RotateLeft(s, 1, 1)
        else if i == 3 then Spec.RotateLeft(Spec.RotateLeft(s, 1, 1), 2, 2)
        else Spec.ShiftRows(s)
    {
      ShiftRow(state, i);
    }
  }

  lemma AroundFour(j: nat, n: nat)
    ensures Around(j, n + 4) == Around(j, n)
  {
  }

  lemma FullTurn(s: Spec.State, i: nat, n: nat)
    requires i < 4
    ensures Spec.RotateLeft(s, i, n + 4) == Spec.RotateLeft(s, i, n)
  {
    hide Spec.RotateLeft, Around, At;
    var a, b := Spec.RotateLeft(s, i, n + 4), Spec.RotateLeft(s, i, n);
    forall l, j | 0 <= l < 4 && 0 <= j < 4 ensures a[At(l, j)] == b[At(l, j)] {
      RotatedAt(s, i, n + 4, l, j);
      RotatedAt(s, i, n, l, j);
      AroundFour(j, n);
    }
    SameState(a, b);
  }

  method InvShiftRows(state: array<bv8>)
    requires state.Length == 16
    modifies state
    ensures state[..] == Spec.InvShiftRows(old(state[..]))
  {
    hide Spec.RotateLeft;
    ghost var s := state[..];
    for i := 1 to 4
      invariant state[..] ==
        if i == 1 then s
        else if i == 2 then Spec.RotateLeft(s, 1, 3)
        else if i == 3 then Spec.RotateLeft(Spec.RotateLeft(s, 1, 3), 2, 2)
        else Spec.InvShiftRows(s)
    {
      ghost var before := state[..];
      InvShiftRow(state, i);
      FullTurn(before, 2, 2);
      FullTurn(before, 3, 1);
      FullTurn(before, 3, 5);
    }
  }

  // ---------------------------------------------------------------- the cipher

  method LoadState(input: array<bv8>, offset: nat, state: array<bv8>)
    requires offset + 16 <= input.Length && state.Length == 16 && state != input
    modifies state
    ensures state[..] == Spec.Load(input[offset..offset + 16])
  {
    for i := 0 to 4
      invariant forall k, l :: 0 <= k < i && 0 <= l < 4 ==> state[At(k, l)] == input[offset + k + 4 * l]
    {
      for j := 0 to 4
        invariant forall k, l :: 0 <= k <= i && 0 <= l < 4 && (k < i || l < j) ==>
          state[At(k, l)] == input[offset + k + 4 * l]
      {
        state[At(i, j)] := input[offset + i + 4 * j];
      }
    }
    forall k, l | 0 <= k < 4 && 0 <= l < 4
      ensures state[At(k, l)] == Spec.Load(input[offset..offset + 16])[At(k, l)]
    {
      assert At(k, l) / 4 == k && At(k, l) % 4 == l;
    }
    SameState(state[..], Spec.Load(input[offset..offset + 16]));
  }

  method StoreState(state: array<bv8>, output: array<bv8>, offset: nat)
    requires offset + 16 <= output.Length && state.Length == 16 && state != output
    modifies output
    ensures output[offset..offset + 16] == Spec.Store(state[..])
    ensures output[..offset] == old(output[..offset]) && output[offset + 16..] == old(output[offset + 16..])
  {
    for i := 0 to 4
      invariant output[..offset] == old(output[..offset]) && output[offset + 16..] == old(output[offset + 16..])
      invariant forall k, l :: 0 <= k < i && 0 <= l < 4 ==> output[offset + At(l, k)] == state[At(k, l)]
    {
      for j := 0 to 4
        invariant output[..offset] == old(output[..offset]) && output[offset + 16..] == old(output[offset + 16..])
        invariant forall k, l :: 0 <= k <= i && 0 <= l < 4 && (k < i || l < j) ==>
          output[offset + At(l, k)] == state[At(k, l)]
      {
        output[offset + At(j, i)] := state[At(i, j)];
      }
    }
    forall l, k | 0 <= l < 4 && 0 <= k < 4
      ensures output[offset..offset + 16][At(l, k)] == Spec.Store(state[..])[At(l, k)]
    {
      assert At(l, k) / 4 == l && At(l, k) % 4 == k;
    }
    SameState(output[offset..offset + 16], Spec.Store(state[..]));
  }

  /** Enciphers the block at `offset` of `input` into the same place of `output`. */
  method Cipher(input: array<bv8>, output: array<bv8>, offset: nat, w: array<bv8>, nr: nat)
    requires Spec.KeyFits(w[..], nr)
    requires offset + 16 <= input.Length && offset + 16 <= output.Length && output != input && output != w
    modifies output
    ensures output[offset..offset + 16] == Spec.Cipher(input[offset..offset + 16], w[..], nr)
    ensures output[..offset] == old(output[..offset]) && output[offset + 16..] == old(output[offset + 16..])
  {
    hide Spec.AddRoundKey, Spec.SubBytes, Spec.ShiftRows, Spec.MixColumns, Spec.Load, Spec.Store;
    var state := new bv8[16];
    LoadState(input, offset, state);
    ghost var s := state[..];
    AddRoundKey(state, w, 0);
    for r := 1 to nr
      invariant output[..] == old(output[..])
      invariant state[..] == Spec.Forward(s, w[..], r - 1)
    {
      SubBytes(state);
      ShiftRows(state);
      MixColumns(state);
      AddRoundKey(state, w, r);
    }
    SubBytes(state);
    ShiftRows(state);
    AddRoundKey(state, w, nr);
    StoreState(state, output, offset);
  }

  method InvCipher(input: array<bv8>, output: array<bv8>, offset: nat, w: array<bv8>, nr: nat)
    requires Spec.KeyFits(w[..], nr)
    requires offset + 16 <= input.Length && offset + 16 <= output.Length && output != input && output != w
    modifies output
    ensures output[offset..offset + 16] == Spec.InvCipher(input[offset..offset + 16], w[..], nr)
    ensures output[..offset] == old(output[..offset]) && output[offset + 16..] == old(output[offset + 16..])
  {
    hide Spec.AddRoundKey, Spec.InvSubBytes, Spec.InvShiftRows, Spec.InvMixColumns, Spec.Load, Spec.Store;
    var state := new bv8[16];
    LoadState(input, offset, state);
    ghost var s := state[..];
    AddRoundKey(state, w, nr);
    var r := nr - 1;
    while r >= 1
      invariant 0 <= r < nr && output[..] == old(output[..])
      invariant state[..] == Spec.Backward(s, w[..], nr, r + 1)
    {
      InvShiftRows(state);
      InvSubBytes(state);
      AddRoundKey(state, w, r);
      InvMixColumns(state);
      r := r - 1;
    }
    InvShiftRows(state);
    InvSubBytes(state);
    AddRoundKey(state, w, 0);
    StoreState(state, output, offset);
  }

  /** The wrapper: strings of any length, one expanded key. */
  class Aes {
    const keyBuf: array<bv8>
    const nr: nat

    ghost predicate Valid()
      reads keyBuf
    {
      Spec.KeyFits(keyBuf[..], nr)
    }

    constructor (keyBuf: array<bv8>, nr: nat)
      requires Spec.KeyFits(keyBuf[..], nr)
      ensures Valid() && this.keyBuf == keyBuf && this.nr == nr
    {
      this.keyBuf, this.nr := keyBuf, nr;
    }

    /** The block loop of `encode`. */
    method CipherAll(input: array<bv8>, ret: array<bv8>, ghost count: nat)
      requires Valid() && ret != input && ret != keyBuf && ret.Length == 16 * count <= input.Length
      modifies ret
      ensures ret[..] == Spec.CipherBlocks(input[..], keyBuf[..], nr, count)
    {
      hide Spec.Cipher, Spec.InvCipher, Spec.CipherBlocks, Spec.InvCipherBlocks;
      ghost var data, key, k: nat := input[..], keyBuf[..], 0;
      Spec.NoBlock(data, key, nr);
      var i := 0;
      while i < ret.Length
        invariant i == 16 * k <= ret.Length
        invariant ret[..i] == Spec.CipherBlocks(data, key, nr, k)
      {
        Spec.NextBlock(data, key, nr, k);
        Cipher(input, ret, i, keyBuf, nr);
        assert input[i..i + 16] == data[i..i + 16];
        assert ret[..i + 16] == ret[..i] + ret[i..i + 16];
        i, k := i + 16, k + 1;
      }
      assert ret[..] == ret[..i];
    }

    /** The block loop of `decode`. */
    method InvCipherAll(input: array<bv8>, ret: array<bv8>, ghost count: nat)
      requires Valid() && ret != input && ret != keyBuf && ret.Length == 16 * count <= input.Length
      modifies ret
      ensures ret[..] == Spec.InvCipherBlocks(input[..], keyBuf[..], nr, count)
    {
      hide Spec.Cipher, Spec.InvCipher, Spec.CipherBlocks, Spec.InvCipherBlocks;
      ghost var data, key, k: nat := input[..], keyBuf[..], 0;
      Spec.NoBlock(data, key, nr);
      var i := 0;
      while i < ret.Length
        invariant i == 16 * k <= ret.Length
        invariant ret[..i] == Spec.InvCipherBlocks(data, key, nr, k)
      {
        Spec.NextBlock(data, key, nr, k);
        InvCipher(input, ret, i, keyBuf, nr);
        assert input[i..i + 16] == data[i..i + 16];
        assert ret[..i + 16] == ret[..i] + ret[i..i + 16];
        i, k := i + 16, k + 1;
      }
      assert ret[..] == ret[..i];
    }

    method Encode(data: Bytes) returns (r: Bytes)
      requires Valid()
      ensures r == Spec.Encode(data, keyBuf[..], nr)
    {
      hide Spec.CipherBlocks;
      if data == [] {
        return [];
      }
      var pad := |data| % 16;
      if pad > 0 {
        pad := 16 - pad;
      }
      var full := data + seq(pad, _ => 0);
      var ret := new bv8[|full|];
      var input := new bv8[|full|](k requires 0 <= k < |full| => full[k]);
      assert input[..] == full == Spec.Padded(data);
      CipherAll(input, ret, |full| / 16);
      r := ret[..] + [pad as bv8];
    }

    method Decode(data: Bytes) returns (r: Bytes)
      requires Valid()
      ensures r == Spec.Decode(data, keyBuf[..], nr)
    {
      hide Spec.InvCipherBlocks;
      if |data| < 16 + 1 || |data| % 16 != 1 || data[|data| - 1] as int >= 128 || data[|data| - 1] as int > 16 - 1 {
        return [];
      }
      var pad := data[|data| - 1] as int;
      var n := |data| - 1;
      var ret := new bv8[n];
      var input := new bv8[|data|](k requires 0 <= k < |data| => data[k]);
      assert input[..] == data;
      InvCipherAll(input, ret, n / 16);
      r := ret[..n - pad];
    }

    /** What the class is for. */
    method RoundTrip(data: Bytes) returns (r: Bytes)
      requires Valid()
      ensures r == data
    {
      var coded := Encode(data);
      r := Decode(coded);
      Spec.DecodeUndoesEncode(data, keyBuf[..], nr);
    }
  }
}
