/** Text at a position of a buffer. */
module Buffers {
  /** `t` lies in `d` at position `p`; anything may precede and follow it. */
  predicate At<T(==)>(d: seq<T>, p: nat, t: seq<T>) {
    p + |t| <= |d| && d[p..p + |t|] == t
  }

  lemma Split<T>(d: seq<T>, p: nat, a: seq<T>, b: seq<T>)
    requires At(d, p, a + b)
    ensures At(d, p, a) && At(d, p + |a|, b)
  {
    var s := d[p..p + |a + b|];
    assert s[..|a|] == a && s[|a|..] == b;
  }

  lemma ElementAt<T>(d: seq<T>, p: nat, t: seq<T>, i: nat)
    requires At(d, p, t) && i < |t|
    ensures d[p + i] == t[i]
  {
    assert d[p..p + |t|][i] == t[i];
  }

  lemma Bounds<T>(d: seq<T>, p: nat, t: seq<T>)
    requires At(d, p, t)
    ensures p + |t| <= |d|
  {
  }
}
