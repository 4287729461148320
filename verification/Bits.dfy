/** Bitwise or and left shift of unsigned integers, as arithmetic. */
module Bits {
  function Pow2(n: nat): (p: nat)
    ensures p > 0
  {
    if n == 0 then 1 else 2 * Pow2(n - 1)
  }

  /** `x << n` without a bound on the width. */
  function Shift(x: nat, n: nat): nat { x * Pow2(n) }

  /** The lowest `n` bits. */
  function Low(x: int, n: nat): nat { x % Pow2(n) }

  /** `a | b`, bit by bit from the lowest. */
  function Or(a: nat, b: nat): nat {
    if a == 0 then b
    else if b == 0 then a
    else 2 * Or(a / 2, b / 2) + (if a % 2 == 1 || b % 2 == 1 then 1 else 0)
  }

  lemma {:induction false} Pow2Sum(m: nat, n: nat)
    ensures Pow2(m + n) == Pow2(m) * Pow2(n)
    decreases m
  {
    if m > 0 { Pow2Sum(m - 1, n); }
  }

  /** Bits put above a number are added to it. */
  lemma {:induction false} OrAbove(a: nat, b: nat, n: nat)
    requires a < Pow2(n)
    ensures Or(a, Shift(b, n)) == a + Shift(b, n)
    decreases n
  {
    if n > 0 && a > 0 && b > 0 {
      assert Shift(b, n) == 2 * Shift(b, n - 1) && Shift(b, n - 1) > 0;
      OrAbove(a / 2, b, n - 1);
      OrEven(a, Shift(b, n - 1));
    }
  }

  lemma OrEven(a: nat, c: nat)
    requires a > 0 && c > 0
    ensures Or(a, 2 * c) == 2 * Or(a / 2, c) + a % 2
  {
    assert 2 * c / 2 == c && 2 * c % 2 == 0;
  }

  lemma ModTwice(x: nat, m: nat)
    requires m > 0
    ensures x % (2 * m) == 2 * (x / 2 % m) + x % 2
  {
    var q, r := x / 2 / m, x / 2 % m;
    assert x / 2 == m * q + r;
    assert x == (2 * m) * q + (2 * r + x % 2);
    Remainder(x, 2 * m, q, 2 * r + x % 2);
  }

  lemma Remainder(x: nat, m: nat, q: nat, r: nat)
    requires m > 0 && x == m * q + r && r < m
    ensures x % m == r
  {
    Quotient(m, q, r, x / m, x % m);
  }

  lemma Quotient(m: nat, q: nat, r: nat, q': nat, r': nat)
    requires m * q + r == m * q' + r' && r < m && r' < m
    ensures q == q' && r == r'
  {
    if q < q' {
      Monotone(m, q + 1, q');
    } else if q' < q {
      Monotone(m, q' + 1, q);
    }
  }

  lemma Monotone(m: nat, a: nat, b: nat)
    requires a <= b
    ensures m * a <= m * b
  {
  }

  /** The low bits of a bitwise or depend on the low bits only. */
  lemma {:induction false} OrLow(a: nat, b: nat, n: nat)
    ensures Low(Or(a, b), n) == Or(Low(a, n), Low(b, n))
    decreases n
  {
    if n > 0 {
      var m := Pow2(n - 1);
      OrLow(a / 2, b / 2, n - 1);
      ModTwice(a, m);
      ModTwice(b, m);
      ModTwice(Or(a, b), m);
      OrParts(a, b);
      OrParts(a % (2 * m), b % (2 * m));
    }
  }

  lemma OrParts(a: nat, b: nat)
    ensures Or(a, b) / 2 == Or(a / 2, b / 2)
    ensures Or(a, b) % 2 == if a % 2 == 1 || b % 2 == 1 then 1 else 0
  {
  }
}
