/** How a changed byte spreads through the rounds of the cipher. */
module AesDiffusion {
  import opened AesTables
  import opened AesColumns
  import opened AesSpec

  // ---------------------------------------------------------------- a round, column by column

  /** The bytes that ShiftRows brings into column `j`, substituted. */
  function Gathered(s: State, j: nat): Column
    requires j < 4
  {
    Column(SBox(s[j]), SBox(s[4 + (j + 1) % 4]), SBox(s[8 + (j + 2) % 4]), SBox(s[12 + (j + 3) % 4]))
  }

  /** The part of the round key that is added to column `j`. */
  function KeyColumn(w: Bytes, r: nat, j: nat): Column
    requires 16 * r + 16 <= |w| && j < 4
  {
    var k := 16 * r + 4 * j;
    Column(w[k], w[k + 1], w[k + 2], w[k + 3])
  }

  function AddColumn(c: Column, k: Column): Column {
    Column(Xor(c.b0, k.b0), Xor(c.b1, k.b1), Xor(c.b2, k.b2), Xor(c.b3, k.b3))
  }

  lemma ShiftedAt(s: State, i: nat, j: nat)
    requires i < 4 && j < 4
    ensures ShiftRows(s)[4 * i + j] == s[4 * i + (j + i) % 4]
  {
  }

  lemma GatheredIs(s: State, j: nat)
    requires j < 4
    ensures ColumnOf(ShiftRows(SubBytes(s)), j) == Gathered(s, j)
  {
    hide SBox, ShiftRows;
    ShiftedAt(SubBytes(s), 0, j);
    ShiftedAt(SubBytes(s), 1, j);
    ShiftedAt(SubBytes(s), 2, j);
    ShiftedAt(SubBytes(s), 3, j);
  }

  lemma KeyAddedAt(s: State, w: Bytes, r: nat, j: nat)
    requires 16 * r + 16 <= |w| && j < 4
    ensures ColumnOf(AddRoundKey(s, w, r), j) == AddColumn(ColumnOf(s, j), KeyColumn(w, r, j))
  {
    hide Xor;
    assert j / 4 == 0 && (4 + j) / 4 == 1 && (8 + j) / 4 == 2 && (12 + j) / 4 == 3;
    assert j % 4 == (4 + j) % 4 == (8 + j) % 4 == (12 + j) % 4 == j;
  }

  /** A round computes each column from four bytes, one of each row. */
  lemma ColumnOfRound(s: State, w: Bytes, r: nat, j: nat)
    requires 16 * r + 16 <= |w| && j < 4
    ensures ColumnOf(Round(s, w, r), j) == AddColumn(CoefMult(MIX, Gathered(s, j)), KeyColumn(w, r, j))
    ensures ColumnOf(LastRound(s, w, r), j) == AddColumn(Gathered(s, j), KeyColumn(w, r, j))
  {
    var t := ShiftRows(SubBytes(s));
    GatheredIs(s, j);
    ColumnOfProduct(MIX, t, j);
    hide ShiftRows, SubBytes, AddRoundKey, MultiplyColumns, ColumnOf, Gathered, AddColumn, CoefMult, KeyColumn;
    KeyAddedAt(MixColumns(t), w, r, j);
    KeyAddedAt(t, w, r, j);
  }

  // ---------------------------------------------------------------- one byte becomes a column

  lemma SBoxInjective(x: bv8, y: bv8)
    requires SBox(x) == SBox(y)
    ensures x == y
  {
    InvSBoxUndoesSBox(x);
    InvSBoxUndoesSBox(y);
    hide SBox, InvSBox;
  }

  predicate Differ(c: Column, d: Column) {
    c.b0 != d.b0 && c.b1 != d.b1 && c.b2 != d.b2 && c.b3 != d.b3
  }

  /** Columns that differ in one byte. */
  predicate DifferOnce(c: Column, d: Column) {
    || (c.b0 != d.b0 && c.b1 == d.b1 && c.b2 == d.b2 && c.b3 == d.b3)
    || (c.b0 == d.b0 && c.b1 != d.b1 && c.b2 == d.b2 && c.b3 == d.b3)
    || (c.b0 == d.b0 && c.b1 == d.b1 && c.b2 != d.b2 && c.b3 == d.b3)
    || (c.b0 == d.b0 && c.b1 == d.b1 && c.b2 == d.b2 && c.b3 != d.b3)
  }

  lemma MultiplesDiffer(a: bv8, x: bv8, y: bv8)
    requires (a == 1 || a == 2 || a == 3) && x != y
    ensures Gmult(a, x) != Gmult(a, y)
  {
    GmultIsProduct(a, x);
    GmultIsProduct(a, y);
    hide Gmult;
    assert Times2(x) != Times2(y);
    assert Times3(x) != Times3(y);
    hide Times2, Times3;
  }

  lemma Cancel(x: Element, y: Element, z: Element)
    requires Add(x, z) == Add(y, z)
    ensures x == y
  {
    AddLaws(x, z, z);
    AddLaws(y, z, z);
    AddToItself(z);
    AddLaws(x, ZERO, ZERO);
    AddLaws(y, ZERO, ZERO);
    hide Add;
  }

  lemma AddToItself(x: Element)
    ensures Add(x, x) == ZERO
  {
  }

  lemma SumsDiffer(w: Element, v: Element, x: Element, y: Element, z: Element)
    requires w != v
    ensures Add4(w, x, y, z) != Add4(v, x, y, z)
  {
    hide Add;
    if Add4(w, x, y, z) == Add4(v, x, y, z) {
      Cancel(Add(w, x), Add(v, x), Add(y, z));
      Cancel(w, v, x);
    }
  }

  /** Sums of four that differ in one place are not the same. */
  lemma XorsDiffer(w: bv8, v: bv8, x: bv8, y: bv8, z: bv8)
    requires w != v
    ensures Xor4(w, x, y, z) != Xor4(v, x, y, z) && Xor4(z, w, x, y) != Xor4(z, v, x, y)
    ensures Xor4(y, z, w, x) != Xor4(y, z, v, x) && Xor4(x, y, z, w) != Xor4(x, y, z, v)
  {
    SumRotates(w, x, y, z);
    SumRotates(v, x, y, z);
    SumsDiffer(Element(w), Element(v), Element(x), Element(y), Element(z));
    hide Xor4, Add4;
  }

  lemma SumRotates(w: bv8, x: bv8, y: bv8, z: bv8)
    ensures var sum := Add4(Element(w), Element(x), Element(y), Element(z));
            && Element(Xor4(w, x, y, z)) == sum && Element(Xor4(z, w, x, y)) == sum
            && Element(Xor4(y, z, w, x)) == sum && Element(Xor4(x, y, z, w)) == sum
  {
    Sum4(w, x, y, z);
    Sum4(z, w, x, y);
    Sum4(y, z, w, x);
    Sum4(x, y, z, w);
    Cycle(Element(w), Element(x), Element(y), Element(z));
    Cycle(Element(x), Element(y), Element(z), Element(w));
    Cycle(Element(y), Element(z), Element(w), Element(x));
    hide Xor4, Add4;
  }

  /** Multiplying with the coefficients spreads one byte over the column. */
  lemma MixSpreads(c: Column, d: Column)
    requires DifferOnce(c, d)
    ensures Differ(CoefMult(MIX, c), CoefMult(MIX, d))
  {
    if c.b0 != d.b0 {
      MixSpreads0(c, d);
    } else if c.b1 != d.b1 {
      MixSpreads1(c, d);
    } else if c.b2 != d.b2 {
      MixSpreads2(c, d);
    } else {
      MixSpreads3(c, d);
    }
    hide CoefMult;
  }

  lemma Multiples(x: bv8, y: bv8)
    requires x != y
    ensures Gmult(1, x) != Gmult(1, y) && Gmult(2, x) != Gmult(2, y) && Gmult(3, x) != Gmult(3, y)
  {
    MultiplesDiffer(1, x, y);
    MultiplesDiffer(2, x, y);
    MultiplesDiffer(3, x, y);
    hide Gmult;
  }

  lemma MixSpreads0(c: Column, d: Column)
    requires c.b0 != d.b0 && c.b1 == d.b1 && c.b2 == d.b2 && c.b3 == d.b3
    ensures Differ(CoefMult(MIX, c), CoefMult(MIX, d))
  {
    Multiples(c.b0, d.b0);
    hide Gmult, Xor4;
    XorsDiffer(Gmult(2, c.b0), Gmult(2, d.b0), Gmult(3, c.b1), Gmult(1, c.b2), Gmult(1, c.b3));
    XorsDiffer(Gmult(1, c.b0), Gmult(1, d.b0), Gmult(2, c.b1), Gmult(3, c.b2), Gmult(1, c.b3));
    XorsDiffer(Gmult(1, c.b0), Gmult(1, d.b0), Gmult(1, c.b1), Gmult(2, c.b2), Gmult(3, c.b3));
    XorsDiffer(Gmult(3, c.b0), Gmult(3, d.b0), Gmult(1, c.b1), Gmult(1, c.b2), Gmult(2, c.b3));
  }

  lemma MixSpreads1(c: Column, d: Column)
    requires c.b1 != d.b1 && c.b0 == d.b0 && c.b2 == d.b2 && c.b3 == d.b3
    ensures Differ(CoefMult(MIX, c), CoefMult(MIX, d))
  {
    Multiples(c.b1, d.b1);
    hide Gmult, Xor4;
    XorsDiffer(Gmult(3, c.b1), Gmult(3, d.b1), Gmult(1, c.b2), Gmult(1, c.b3), Gmult(2, c.b0));
    XorsDiffer(Gmult(2, c.b1), Gmult(2, d.b1), Gmult(3, c.b2), Gmult(1, c.b3), Gmult(1, c.b0));
    XorsDiffer(Gmult(1, c.b1), Gmult(1, d.b1), Gmult(2, c.b2), Gmult(3, c.b3), Gmult(1, c.b0));
    XorsDiffer(Gmult(1, c.b1), Gmult(1, d.b1), Gmult(1, c.b2), Gmult(2, c.b3), Gmult(3, c.b0));
  }

  lemma MixSpreads2(c: Column, d: Column)
    requires c.b2 != d.b2 && c.b0 == d.b0 && c.b1 == d.b1 && c.b3 == d.b3
    ensures Differ(CoefMult(MIX, c), CoefMult(MIX, d))
  {
    Multiples(c.b2, d.b2);
    hide Gmult, Xor4;
    XorsDiffer(Gmult(1, c.b2), Gmult(1, d.b2), Gmult(1, c.b3), Gmult(2, c.b0), Gmult(3, c.b1));
    XorsDiffer(Gmult(3, c.b2), Gmult(3, d.b2), Gmult(1, c.b3), Gmult(1, c.b0), Gmult(2, c.b1));
    XorsDiffer(Gmult(2, c.b2), Gmult(2, d.b2), Gmult(3, c.b3), Gmult(1, c.b0), Gmult(1, c.b1));
    XorsDiffer(Gmult(1, c.b2), Gmult(1, d.b2), Gmult(2, c.b3), Gmult(3, c.b0), Gmult(1, c.b1));
  }

  lemma MixSpreads3(c: Column, d: Column)
    requires c.b3 != d.b3 && c.b0 == d.b0 && c.b1 == d.b1 && c.b2 == d.b2
    ensures Differ(CoefMult(MIX, c), CoefMult(MIX, d))
  {
    Multiples(c.b3, d.b3);
    hide Gmult, Xor4;
    XorsDiffer(Gmult(1, c.b3), Gmult(1, d.b3), Gmult(2, c.b0), Gmult(3, c.b1), Gmult(1, c.b2));
    XorsDiffer(Gmult(1, c.b3), Gmult(1, d.b3), Gmult(1, c.b0), Gmult(2, c.b1), Gmult(3, c.b2));
    XorsDiffer(Gmult(3, c.b3), Gmult(3, d.b3), Gmult(1, c.b0), Gmult(1, c.b1), Gmult(2, c.b2));
    XorsDiffer(Gmult(2, c.b3), Gmult(2, d.b3), Gmult(3, c.b0), Gmult(1, c.b1), Gmult(1, c.b2));
  }

  lemma KeyKeepsDifference(c: Column, d: Column, k: Column)
    requires Differ(c, d)
    ensures Differ(AddColumn(c, k), AddColumn(d, k))
  {
    XorTwice(c.b0, k.b0);
    XorTwice(c.b1, k.b1);
    XorTwice(c.b2, k.b2);
    XorTwice(c.b3, k.b3);
    XorTwice(d.b0, k.b0);
    XorTwice(d.b1, k.b1);
    XorTwice(d.b2, k.b2);
    XorTwice(d.b3, k.b3);
    hide Xor;
  }

  /** The states differ in exactly one of the bytes that ShiftRows brings into column `j`. */
  predicate OneInto(s: State, t: State, j: nat)
    requires j < 4
  {
    DifferOnce(Gathered(s, j), Gathered(t, j))
  }

  lemma ColumnSpreads(s: State, t: State, w: Bytes, r: nat, j: nat)
    requires 16 * r + 16 <= |w| && j < 4 && OneInto(s, t, j)
    ensures Differ(ColumnOf(Round(s, w, r), j), ColumnOf(Round(t, w, r), j))
  {
    ColumnOfRound(s, w, r, j);
    ColumnOfRound(t, w, r, j);
    hide Round, CoefMult, Gathered, DifferOnce, KeyColumn, AddColumn, Differ, ColumnOf;
    MixSpreads(Gathered(s, j), Gathered(t, j));
    KeyKeepsDifference(CoefMult(MIX, Gathered(s, j)), CoefMult(MIX, Gathered(t, j)), KeyColumn(w, r, j));
  }

  lemma ColumnStays(s: State, t: State, w: Bytes, r: nat, j: nat)
    requires 16 * r + 16 <= |w| && j < 4 && Gathered(s, j) == Gathered(t, j)
    ensures ColumnOf(Round(s, w, r), j) == ColumnOf(Round(t, w, r), j)
  {
    ColumnOfRound(s, w, r, j);
    ColumnOfRound(t, w, r, j);
    hide Round, CoefMult, Gathered, KeyColumn, AddColumn, ColumnOf;
  }

  /** The states differ in byte `k` and nowhere else. */
  predicate OnlyAt(s: State, t: State, k: nat) {
    forall m :: 0 <= m < 16 ==> (s[m] != t[m] <==> m == k)
  }

  /** The column that ShiftRows moves byte `k` to: a byte of row `i` goes `i` places to the left. */
  function Target(k: nat): (j: nat)
    ensures j < 4
  {
    (k % 4 + 4 - k / 4 % 4) % 4
  }

  lemma SubDiffers(x: bv8, y: bv8)
    ensures SBox(x) == SBox(y) <==> x == y
  {
    if SBox(x) == SBox(y) { SBoxInjective(x, y); }
    hide SBox;
  }

  lemma TargetIff(k: nat, j: nat)
    requires k < 16 && j < 4
    ensures j == Target(k) <==>
            k == j || k == 4 + (j + 1) % 4 || k == 8 + (j + 2) % 4 || k == 12 + (j + 3) % 4
  {
  }

  /** Which column the changed byte reaches. */
  lemma OneByteGathered(s: State, t: State, k: nat, j: nat)
    requires k < 16 && j < 4 && OnlyAt(s, t, k)
    ensures if j == Target(k) then OneInto(s, t, j) else Gathered(s, j) == Gathered(t, j)
  {
    hide SBox, Target, OnlyAt;
    TargetIff(k, j);
    var i1, i2, i3 := 4 + (j + 1) % 4, 8 + (j + 2) % 4, 12 + (j + 3) % 4;
    assert j < 4 <= i1 < 8 <= i2 < 12 <= i3 < 16;
    AtByte(s, t, k, j);
    AtByte(s, t, k, i1);
    AtByte(s, t, k, i2);
    AtByte(s, t, k, i3);
    GatheredDiffer(Gathered(s, j), Gathered(t, j), j == Target(k));
    hide Gathered, DifferOnce;
  }

  lemma GatheredDiffer(c: Column, d: Column, once: bool)
    requires once <==> c.b0 != d.b0 || c.b1 != d.b1 || c.b2 != d.b2 || c.b3 != d.b3
    requires !(c.b0 != d.b0 && c.b1 != d.b1) && !(c.b0 != d.b0 && c.b2 != d.b2) && !(c.b0 != d.b0 && c.b3 != d.b3)
    requires !(c.b1 != d.b1 && c.b2 != d.b2) && !(c.b1 != d.b1 && c.b3 != d.b3) && !(c.b2 != d.b2 && c.b3 != d.b3)
    ensures if once then DifferOnce(c, d) else c == d
  {
  }

  lemma AtByte(s: State, t: State, k: nat, m: nat)
    requires m < 16 && OnlyAt(s, t, k)
    ensures SBox(s[m]) != SBox(t[m]) <==> m == k
  {
    hide SBox;
    SubDiffers(s[m], t[m]);
  }

  /** The states differ in exactly the four bytes of column `j`. */
  predicate OnlyColumn(s: State, t: State, j: nat) {
    forall m :: 0 <= m < 16 ==> (s[m] != t[m] <==> m % 4 == j)
  }

  lemma FromColumns(s: State, t: State, j: nat)
    requires j < 4 && Differ(ColumnOf(s, j), ColumnOf(t, j))
    requires forall i :: 0 <= i < 4 && i != j ==> ColumnOf(s, i) == ColumnOf(t, i)
    ensures OnlyColumn(s, t, j)
  {
    forall m | 0 <= m < 16 ensures s[m] != t[m] <==> m % 4 == j {
      PickFromColumn(s, m);
      PickFromColumn(t, m);
    }
  }

  /** One round after a change of one byte exactly the four bytes of one column are changed: of the column that the
      byte is shifted to. */
  lemma OneByteBecomesAColumn(s: State, t: State, w: Bytes, r: nat, k: nat)
    requires 16 * r + 16 <= |w| && k < 16 && OnlyAt(s, t, k)
    ensures OnlyColumn(Round(s, w, r), Round(t, w, r), Target(k))
  {
    hide Round, OnlyAt, OnlyColumn, OneInto, Gathered, ColumnOf, Differ;
    forall j | 0 <= j < 4
      ensures if j == Target(k) then Differ(ColumnOf(Round(s, w, r), j), ColumnOf(Round(t, w, r), j))
              else ColumnOf(Round(s, w, r), j) == ColumnOf(Round(t, w, r), j)
    {
      OneByteGathered(s, t, k, j);
      if j == Target(k) { ColumnSpreads(s, t, w, r, j); } else { ColumnStays(s, t, w, r, j); }
    }
    FromColumns(Round(s, w, r), Round(t, w, r), Target(k));
  }

  lemma ColumnGathered(s: State, t: State, j: nat, c: nat)
    requires j < 4 && c < 4 && OnlyColumn(s, t, c)
    ensures OneInto(s, t, j)
  {
    hide SBox;
    SubDiffers(s[j], t[j]);
    SubDiffers(s[4 + (j + 1) % 4], t[4 + (j + 1) % 4]);
    SubDiffers(s[8 + (j + 2) % 4], t[8 + (j + 2) % 4]);
    SubDiffers(s[12 + (j + 3) % 4], t[12 + (j + 3) % 4]);
  }

  predicate DifferEverywhere(s: State, t: State) {
    forall m :: 0 <= m < 16 ==> s[m] != t[m]
  }

  lemma FromDifferentColumns(s: State, t: State)
    requires Differ(ColumnOf(s, 0), ColumnOf(t, 0)) && Differ(ColumnOf(s, 1), ColumnOf(t, 1))
    requires Differ(ColumnOf(s, 2), ColumnOf(t, 2)) && Differ(ColumnOf(s, 3), ColumnOf(t, 3))
    ensures DifferEverywhere(s, t)
  {
    forall m | 0 <= m < 16 ensures s[m] != t[m] {
      PickFromColumn(s, m);
      PickFromColumn(t, m);
    }
  }

  lemma ColumnBecomesAll(s: State, t: State, w: Bytes, r: nat, c: nat)
    requires 16 * r + 16 <= |w| && c < 4 && OnlyColumn(s, t, c)
    ensures DifferEverywhere(Round(s, w, r), Round(t, w, r))
  {
    hide Round, OnlyColumn, OneInto, ColumnOf, Differ, DifferEverywhere;
    forall j | 0 <= j < 4 ensures Differ(ColumnOf(Round(s, w, r), j), ColumnOf(Round(t, w, r), j)) {
      ColumnGathered(s, t, j, c);
      ColumnSpreads(s, t, w, r, j);
    }
    FromDifferentColumns(Round(s, w, r), Round(t, w, r));
  }

  /** Two rounds after it every byte of the state is changed. */
  lemma OneByteBecomesAll(s: State, t: State, w: Bytes, r: nat, k: nat)
    requires 16 * (r + 1) + 16 <= |w| && k < 16 && OnlyAt(s, t, k)
    ensures DifferEverywhere(Round(Round(s, w, r), w, r + 1), Round(Round(t, w, r), w, r + 1))
  {
    hide Round, OnlyAt, OnlyColumn, DifferEverywhere, Target;
    var s1, t1 := Round(s, w, r), Round(t, w, r);
    OneByteBecomesAColumn(s, t, w, r, k);
    ColumnBecomesAll(s1, t1, w, r + 1, Target(k));
  }
}
