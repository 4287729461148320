/** `coef_mult`, and why the inverse coefficients undo the forward ones over GF(2^8). */
module AesColumns {
  import opened AesTables

  datatype Column = Column(b0: bv8, b1: bv8, b2: bv8, b3: bv8)

  predicate Coefficients(a: Column) {
    Coefficient(a.b0) && Coefficient(a.b1) && Coefficient(a.b2) && Coefficient(a.b3)
  }

  function Xor4(w: bv8, x: bv8, y: bv8, z: bv8): bv8 { w ^ x ^ y ^ z }

  /** The product of two polynomials of degree 3 modulo x^4 + 1, through the table. */
  function CoefMult(a: Column, b: Column): Column
    requires Coefficients(a)
  {
    Column(
      Xor4(Gmult(a.b0, b.b0), Gmult(a.b3, b.b1), Gmult(a.b2, b.b2), Gmult(a.b1, b.b3)),
      Xor4(Gmult(a.b1, b.b0), Gmult(a.b0, b.b1), Gmult(a.b3, b.b2), Gmult(a.b2, b.b3)),
      Xor4(Gmult(a.b2, b.b0), Gmult(a.b1, b.b1), Gmult(a.b0, b.b2), Gmult(a.b3, b.b3)),
      Xor4(Gmult(a.b3, b.b0), Gmult(a.b2, b.b1), Gmult(a.b1, b.b2), Gmult(a.b0, b.b3)))
  }

  const MIX := Column(0x02, 0x01, 0x01, 0x03)
  const INV_MIX := Column(0x0e, 0x09, 0x0d, 0x0b)

  // ---------------------------------------------------------------- field elements

  /** An element of GF(2^8). */
  datatype Element = Element(v: bv8)

  function Add(x: Element, y: Element): Element { Element(x.v ^ y.v) }

  function Add4(w: Element, x: Element, y: Element, z: Element): Element { Add(Add(w, x), Add(y, z)) }

  function By(a: bv8, x: Element): Element
    requires Coefficient(a)
  {
    Element(Product(a, x.v))
  }

  const ZERO := Element(0)

  lemma AddLaws(x: Element, y: Element, z: Element)
    ensures Add(x, y) == Add(y, x) && Add(Add(x, y), z) == Add(x, Add(y, z)) && Add(x, ZERO) == x
  {
  }

  lemma Medial(w: Element, x: Element, y: Element, z: Element)
    ensures Add(Add(w, x), Add(y, z)) == Add(Add(w, y), Add(x, z))
  {
    AddLaws(Add(w, x), y, z);
    AddLaws(w, x, y);
    AddLaws(x, y, x);
    AddLaws(w, y, x);
    AddLaws(Add(w, y), x, z);
    hide Add;
  }

  lemma AddColumns(
      p0: Element, p1: Element, p2: Element, p3: Element, q0: Element, q1: Element, q2: Element, q3: Element)
    ensures Add(Add4(p0, p1, p2, p3), Add4(q0, q1, q2, q3))
         == Add4(Add(p0, q0), Add(p1, q1), Add(p2, q2), Add(p3, q3))
  {
    Medial(Add(p0, p1), Add(p2, p3), Add(q0, q1), Add(q2, q3));
    Medial(p0, p1, q0, q1);
    Medial(p2, p3, q2, q3);
    hide Add;
  }

  /** A sum of sums may be taken column by column. */
  lemma Transpose(
      p0: Element, p1: Element, p2: Element, p3: Element, q0: Element, q1: Element, q2: Element, q3: Element,
      r0: Element, r1: Element, r2: Element, r3: Element, s0: Element, s1: Element, s2: Element, s3: Element)
    ensures Add4(Add4(p0, p1, p2, p3), Add4(q0, q1, q2, q3), Add4(r0, r1, r2, r3), Add4(s0, s1, s2, s3))
         == Add4(Add4(p0, q0, r0, s0), Add4(p1, q1, r1, s1), Add4(p2, q2, r2, s2), Add4(p3, q3, r3, s3))
  {
    AddColumns(p0, p1, p2, p3, q0, q1, q2, q3);
    AddColumns(r0, r1, r2, r3, s0, s1, s2, s3);
    AddColumns(Add(p0, q0), Add(p1, q1), Add(p2, q2), Add(p3, q3),
               Add(r0, s0), Add(r1, s1), Add(r2, s2), Add(r3, s3));
    hide Add;
  }

  lemma Cycle(w: Element, x: Element, y: Element, z: Element)
    ensures Add4(w, x, y, z) == Add4(x, y, z, w)
  {
    Medial(x, w, y, z);
    AddLaws(w, x, w);
    AddLaws(w, z, w);
    hide Add;
  }

  lemma AddZeros(x: Element)
    ensures Add4(x, ZERO, ZERO, ZERO) == x
  {
    AddLaws(x, ZERO, ZERO);
    AddLaws(ZERO, ZERO, ZERO);
    hide Add;
  }

  /** Multiplication distributes over sums. */
  lemma ByAdd(a: bv8, x: Element, y: Element)
    requires Coefficient(a)
    ensures By(a, Add(x, y)) == Add(By(a, x), By(a, y))
  {
    ProductIsLinear(a, x.v, y.v);
    hide Product;
  }

  lemma ByAdd4(a: bv8, w: Element, x: Element, y: Element, z: Element)
    requires Coefficient(a)
    ensures By(a, Add4(w, x, y, z)) == Add4(By(a, w), By(a, x), By(a, y), By(a, z))
  {
    ByAdd(a, Add(w, x), Add(y, z));
    ByAdd(a, w, x);
    ByAdd(a, y, z);
    hide By, Add;
  }

  // ---------------------------------------------------------------- the inverse

  // What one byte contributes to a byte of the doubly multiplied column: itself once, else nothing.

  lemma SameByte(c: Element)
    ensures Add4(By(0x0e, By(2, c)), By(0x0b, c), By(0x0d, c), By(9, By(3, c))) == c
  {
    var v := c.v;
    assert TimesE(Times2(v)) ^ TimesB(v) ^ (TimesD(v) ^ Times9(Times3(v))) == v;
    hide Times2, Times3, Times9, TimesB, TimesD, TimesE;
  }

  lemma NextByte(c: Element)
    ensures Add4(By(0x0e, By(3, c)), By(0x0b, By(2, c)), By(0x0d, c), By(9, c)) == ZERO
  {
    var v := c.v;
    assert TimesE(Times3(v)) ^ TimesB(Times2(v)) ^ (TimesD(v) ^ Times9(v)) == 0;
    hide Times2, Times3, Times9, TimesB, TimesD, TimesE;
  }

  lemma OppositeByte(c: Element)
    ensures Add4(By(0x0e, c), By(0x0b, By(3, c)), By(0x0d, By(2, c)), By(9, c)) == ZERO
  {
    var v := c.v;
    assert TimesE(v) ^ TimesB(Times3(v)) ^ (TimesD(Times2(v)) ^ Times9(v)) == 0;
    hide Times2, Times3, Times9, TimesB, TimesD, TimesE;
  }

  lemma PreviousByte(c: Element)
    ensures Add4(By(0x0e, c), By(0x0b, c), By(0x0d, By(3, c)), By(9, By(2, c))) == ZERO
  {
    var v := c.v;
    assert TimesE(v) ^ TimesB(v) ^ (TimesD(Times3(v)) ^ Times9(Times2(v))) == 0;
    hide Times2, Times3, Times9, TimesB, TimesD, TimesE;
  }

  /** One byte of the column product with the forward coefficients, `c0` being the byte in place. */
  function Mixed(c0: Element, c1: Element, c2: Element, c3: Element): Element {
    Add4(By(2, c0), By(3, c1), c2, c3)
  }

  function InvMixed(c0: Element, c1: Element, c2: Element, c3: Element): Element {
    Add4(By(0x0e, c0), By(0x0b, c1), By(0x0d, c2), By(9, c3))
  }

  lemma InvMixedOfMixed(c0: Element, c1: Element, c2: Element, c3: Element)
    ensures InvMixed(Mixed(c0, c1, c2, c3), Mixed(c1, c2, c3, c0), Mixed(c2, c3, c0, c1), Mixed(c3, c0, c1, c2)) == c0
  {
    SameByte(c0);
    NextByte(c1);
    OppositeByte(c2);
    PreviousByte(c3);
    AddZeros(c0);
    Cycle(c0, By(2, c1), By(3, c2), c3);
    Cycle(c0, c1, By(2, c2), By(3, c3));
    Cycle(c1, By(2, c2), By(3, c3), c0);
    Cycle(By(3, c0), c1, c2, By(2, c3));
    Cycle(c1, c2, By(2, c3), By(3, c0));
    Cycle(c2, By(2, c3), By(3, c0), c1);
    ByAdd4(0x0e, By(2, c0), By(3, c1), c2, c3);
    ByAdd4(0x0b, c0, By(2, c1), By(3, c2), c3);
    ByAdd4(0x0d, c0, c1, By(2, c2), By(3, c3));
    ByAdd4(0x09, By(3, c0), c1, c2, By(2, c3));
    Transpose(By(0x0e, By(2, c0)), By(0x0e, By(3, c1)), By(0x0e, c2), By(0x0e, c3),
              By(0x0b, c0), By(0x0b, By(2, c1)), By(0x0b, By(3, c2)), By(0x0b, c3),
              By(0x0d, c0), By(0x0d, c1), By(0x0d, By(2, c2)), By(0x0d, By(3, c3)),
              By(9, By(3, c0)), By(9, c1), By(9, c2), By(9, By(2, c3)));
    hide By, Add4;
  }

  lemma Sum4(w: bv8, x: bv8, y: bv8, z: bv8)
    ensures Element(Xor4(w, x, y, z)) == Add4(Element(w), Element(x), Element(y), Element(z))
  {
  }

  /** A table lookup in the forward product is a product of elements. */
  lemma Lookups(b: bv8)
    ensures forall a :: Coefficient(a) ==> Element(Gmult(a, b)) == By(a, Element(b))
    ensures By(1, Element(b)) == Element(b)
  {
    forall a | Coefficient(a) ensures Element(Gmult(a, b)) == By(a, Element(b)) {
      GmultIsProduct(a, b);
      hide Gmult, Product;
    }
  }

  lemma MixBytes(c: Column)
    ensures
      var m := CoefMult(MIX, c);
      var c0, c1, c2, c3 := Element(c.b0), Element(c.b1), Element(c.b2), Element(c.b3);
      && Element(m.b0) == Mixed(c0, c1, c2, c3) && Element(m.b1) == Mixed(c1, c2, c3, c0)
      && Element(m.b2) == Mixed(c2, c3, c0, c1) && Element(m.b3) == Mixed(c3, c0, c1, c2)
  {
    Lookups(c.b0);
    Lookups(c.b1);
    Lookups(c.b2);
    Lookups(c.b3);
    var c0, c1, c2, c3 := Element(c.b0), Element(c.b1), Element(c.b2), Element(c.b3);
    Sum4(Gmult(2, c.b0), Gmult(3, c.b1), Gmult(1, c.b2), Gmult(1, c.b3));
    Sum4(Gmult(1, c.b0), Gmult(2, c.b1), Gmult(3, c.b2), Gmult(1, c.b3));
    Sum4(Gmult(1, c.b0), Gmult(1, c.b1), Gmult(2, c.b2), Gmult(3, c.b3));
    Sum4(Gmult(3, c.b0), Gmult(1, c.b1), Gmult(1, c.b2), Gmult(2, c.b3));
    Cycle(c0, By(2, c1), By(3, c2), c3);
    Cycle(c0, c1, By(2, c2), By(3, c3));
    Cycle(c1, By(2, c2), By(3, c3), c0);
    Cycle(By(3, c0), c1, c2, By(2, c3));
    Cycle(c1, c2, By(2, c3), By(3, c0));
    Cycle(c2, By(2, c3), By(3, c0), c1);
    hide Gmult, By, Add4, Xor4;
  }

  lemma InvMixBytes(c: Column)
    ensures
      var m := CoefMult(INV_MIX, c);
      var c0, c1, c2, c3 := Element(c.b0), Element(c.b1), Element(c.b2), Element(c.b3);
      && Element(m.b0) == InvMixed(c0, c1, c2, c3) && Element(m.b1) == InvMixed(c1, c2, c3, c0)
      && Element(m.b2) == InvMixed(c2, c3, c0, c1) && Element(m.b3) == InvMixed(c3, c0, c1, c2)
  {
    Lookups(c.b0);
    Lookups(c.b1);
    Lookups(c.b2);
    Lookups(c.b3);
    var c0, c1, c2, c3 := Element(c.b0), Element(c.b1), Element(c.b2), Element(c.b3);
    Sum4(Gmult(0x0e, c.b0), Gmult(0x0b, c.b1), Gmult(0x0d, c.b2), Gmult(9, c.b3));
    Sum4(Gmult(9, c.b0), Gmult(0x0e, c.b1), Gmult(0x0b, c.b2), Gmult(0x0d, c.b3));
    Sum4(Gmult(0x0d, c.b0), Gmult(9, c.b1), Gmult(0x0e, c.b2), Gmult(0x0b, c.b3));
    Sum4(Gmult(0x0b, c.b0), Gmult(0x0d, c.b1), Gmult(9, c.b2), Gmult(0x0e, c.b3));
    Cycle(By(9, c0), By(0x0e, c1), By(0x0b, c2), By(0x0d, c3));
    Cycle(By(0x0d, c0), By(9, c1), By(0x0e, c2), By(0x0b, c3));
    Cycle(By(9, c1), By(0x0e, c2), By(0x0b, c3), By(0x0d, c0));
    Cycle(By(0x0b, c0), By(0x0d, c1), By(9, c2), By(0x0e, c3));
    Cycle(By(0x0d, c1), By(9, c2), By(0x0e, c3), By(0x0b, c0));
    Cycle(By(9, c2), By(0x0e, c3), By(0x0b, c0), By(0x0d, c1));
    hide Gmult, By, Add4, Xor4;
  }

  /** InvMixColumns undoes MixColumns on a column (sections 5.1.3 and 5.3.3 of FIPS 197). */
  lemma InvMixUndoesMix(c: Column)
    ensures CoefMult(INV_MIX, CoefMult(MIX, c)) == c
  {
    var c0, c1, c2, c3 := Element(c.b0), Element(c.b1), Element(c.b2), Element(c.b3);
    MixBytes(c);
    InvMixBytes(CoefMult(MIX, c));
    InvMixedOfMixed(c0, c1, c2, c3);
    InvMixedOfMixed(c1, c2, c3, c0);
    InvMixedOfMixed(c2, c3, c0, c1);
    InvMixedOfMixed(c3, c0, c1, c2);
    hide CoefMult, Mixed, InvMixed;
  }
}
