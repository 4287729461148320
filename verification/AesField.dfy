/** Multiplication in GF(2^8), and what the tables of the cipher hold in its terms (sections 4.2, 5.1.1 and 5.1.3 of
    FIPS 197). */
module AesField {
  import opened AesTables

  predicate BitSet(b: bv8, n: bv8)
    requires n < 8
  {
    (b >> n) & 1 == 1
  }

  function Term(a: bv8, on: bool): bv8 { if on then a else 0 }

  /** The product modulo x^8 + x^4 + x^3 + x + 1: one shifted copy of `a` for every bit of `b`. */
  function Times(a: bv8, b: bv8): bv8 {
    Term(a, BitSet(b, 0)) ^ Term(Xtime(a), BitSet(b, 1)) ^ Term(X4(a), BitSet(b, 2)) ^ Term(X8(a), BitSet(b, 3))
    ^ Term(Xtime(X8(a)), BitSet(b, 4)) ^ Term(X4(X8(a)), BitSet(b, 5))
    ^ Term(X8(X8(a)), BitSet(b, 6)) ^ Term(Xtime(X8(X8(a))), BitSet(b, 7))
  }

  function Rotate(b: bv8, n: bv8): bv8
    requires 0 < n < 8
  {
    (b << n) | (b >> (8 - n))
  }

  /** The affine map of the S-box. */
  function Affine(b: bv8): bv8 { b ^ Rotate(b, 1) ^ Rotate(b, 2) ^ Rotate(b, 3) ^ Rotate(b, 4) ^ 0x63 }

  /** What the S-box holds, for every byte: the affine map of the multiplicative inverse, zero being its own. */
  lemma SBoxIff(x: bv8, y: bv8)
    ensures SBox(x) == Affine(y) <==> if x == 0 then y == 0 else Times(x, y) == 1
  {
    hide SBox, Affine, Times;
    if x < 0x20 { SBoxIff0(x, y); }
    else if x < 0x40 { SBoxIff2(x, y); }
    else if x < 0x60 { SBoxIff4(x, y); }
    else if x < 0x80 { SBoxIff6(x, y); }
    else if x < 0xa0 { SBoxIff8(x, y); }
    else if x < 0xc0 { SBoxIffA(x, y); }
    else if x < 0xe0 { SBoxIffC(x, y); }
    else { SBoxIffE(x, y); }
  }

  lemma SBoxIff0(x: bv8, y: bv8)
    requires x < 0x20
    ensures SBox(x) == Affine(y) <==> if x == 0 then y == 0 else Times(x, y) == 1
  {
  }

  lemma SBoxIff2(x: bv8, y: bv8)
    requires 0x20 <= x < 0x40
    ensures SBox(x) == Affine(y) <==> Times(x, y) == 1
  {
  }

  lemma SBoxIff4(x: bv8, y: bv8)
    requires 0x40 <= x < 0x60
    ensures SBox(x) == Affine(y) <==> Times(x, y) == 1
  {
  }

  lemma SBoxIff6(x: bv8, y: bv8)
    requires 0x60 <= x < 0x80
    ensures SBox(x) == Affine(y) <==> Times(x, y) == 1
  {
  }

  lemma SBoxIff8(x: bv8, y: bv8)
    requires 0x80 <= x < 0xa0
    ensures SBox(x) == Affine(y) <==> Times(x, y) == 1
  {
  }

  lemma SBoxIffA(x: bv8, y: bv8)
    requires 0xa0 <= x < 0xc0
    ensures SBox(x) == Affine(y) <==> Times(x, y) == 1
  {
  }

  lemma SBoxIffC(x: bv8, y: bv8)
    requires 0xc0 <= x < 0xe0
    ensures SBox(x) == Affine(y) <==> Times(x, y) == 1
  {
  }

  lemma SBoxIffE(x: bv8, y: bv8)
    requires x >= 0xe0
    ensures SBox(x) == Affine(y) <==> Times(x, y) == 1
  {
  }

  /** Every byte is the affine map of some byte, so that the condition above leaves no entry open. */
  lemma AffineIsOnto(b: bv8)
    ensures exists y :: Affine(y) == b
  {
    var y := Rotate(b, 1) ^ Rotate(b, 3) ^ Rotate(b, 6) ^ 0x05;
    assert Affine(y) == b;
  }

  /** The table lookups are products with the coefficient. */
  lemma GmultIsTimes(a: bv8, b: bv8)
    requires Coefficient(a)
    ensures Gmult(a, b) == Times(b, a)
  {
    GmultIsProduct(a, b);
    hide Gmult;
    if a == 1 { Times01(b); }
    else if a == 2 { Times02(b); }
    else if a == 3 { Times03(b); }
    else if a == 9 { Times09(b); }
    else if a == 0x0b { Times0b(b); }
    else if a == 0x0d { Times0d(b); }
    else { Times0e(b); }
    hide Times, Times2, Times3, Times9, TimesB, TimesD, TimesE;
  }

  lemma Times01(b: bv8)
    ensures Times(b, 0x01) == b
  {
  }

  lemma Times02(b: bv8)
    ensures Times(b, 0x02) == Times2(b)
  {
  }

  lemma Times03(b: bv8)
    ensures Times(b, 0x03) == Times3(b)
  {
  }

  lemma Times09(b: bv8)
    ensures Times(b, 0x09) == Times9(b)
  {
  }

  lemma Times0b(b: bv8)
    ensures Times(b, 0x0b) == TimesB(b)
  {
  }

  lemma Times0d(b: bv8)
    ensures Times(b, 0x0d) == TimesD(b)
  {
  }

  lemma Times0e(b: bv8)
    ensures Times(b, 0x0e) == TimesE(b)
  {
  }
}
