/** Words of 32 bits, bit by bit. */
module WordBits {
  predicate BitSet(w: bv32, i: bv32)
    requires i < 32
  {
    (w >> i) & 1 == 1
  }

  function And(x: bv32, y: bv32): bv32 { x & y }

  function Or(x: bv32, y: bv32): bv32 { x | y }

  function Xor(x: bv32, y: bv32): bv32 { x ^ y }

  function Not(x: bv32): bv32 { !x }

  lemma AndIs(x: bv32, y: bv32)
    ensures And(x, y) == x & y
  {
  }

  lemma OrIs(x: bv32, y: bv32)
    ensures Or(x, y) == x | y
  {
  }

  lemma XorIs(x: bv32, y: bv32)
    ensures Xor(x, y) == x ^ y
  {
  }

  lemma NotIs(x: bv32)
    ensures Not(x) == !x
  {
  }

  lemma BitOfAnd(x: bv32, y: bv32, i: bv32)
    requires i < 32
    ensures BitSet(x & y, i) <==> BitSet(x, i) && BitSet(y, i)
  {
  }

  lemma BitOfOr(x: bv32, y: bv32, i: bv32)
    requires i < 32
    ensures BitSet(x | y, i) <==> BitSet(x, i) || BitSet(y, i)
  {
  }

  lemma BitOfXor(x: bv32, y: bv32, i: bv32)
    requires i < 32
    ensures BitSet(x ^ y, i) <==> (BitSet(x, i) != BitSet(y, i))
  {
  }

  lemma BitOfNot(x: bv32, i: bv32)
    requires i < 32
    ensures BitSet(!x, i) <==> !BitSet(x, i)
  {
  }

  lemma AndBit(x: bv32, y: bv32, i: bv32)
    requires i < 32
    ensures BitSet(And(x, y), i) <==> BitSet(x, i) && BitSet(y, i)
  {
    hide And, BitSet;
    AndIs(x, y);
    BitOfAnd(x, y, i);
  }

  lemma OrBit(x: bv32, y: bv32, i: bv32)
    requires i < 32
    ensures BitSet(Or(x, y), i) <==> BitSet(x, i) || BitSet(y, i)
  {
    hide Or, BitSet;
    OrIs(x, y);
    BitOfOr(x, y, i);
  }

  lemma XorBit(x: bv32, y: bv32, i: bv32)
    requires i < 32
    ensures BitSet(Xor(x, y), i) <==> (BitSet(x, i) != BitSet(y, i))
  {
    hide Xor, BitSet;
    XorIs(x, y);
    BitOfXor(x, y, i);
  }

  lemma NotBit(x: bv32, i: bv32)
    requires i < 32
    ensures BitSet(Not(x), i) <==> !BitSet(x, i)
  {
    hide Not, BitSet;
    NotIs(x);
    BitOfNot(x, i);
  }
}
