/** The bytes of every object, told from the layout and not from the encoder. */
module SerialWire {
  import opened Serial

  // ---------------------------------------------------------------- digits

  /** Sizes are written to the base 128, magnitudes of integers to the base 64. */
  datatype Base = B64 | B128

  function Radix(b: Base): nat { match b case B64 => 64 case B128 => 128 }

  function Pow(b: Base, k: nat): nat { if k == 0 then 1 else Radix(b) * Pow(b, k - 1) }

  /** The digit in a byte. */
  function Digit(x: byte, b: Base): (d: nat)
    ensures d < Radix(b)
  {
    match b case B64 => x % 64 case B128 => x % 128
  }

  /** What digits denote by their positions, the least significant first. */
  function Value(bs: Bytes, b: Base): nat {
    if bs == [] then 0 else Value(bs[..|bs| - 1], b) + Digit(bs[|bs| - 1], b) * Pow(b, |bs| - 1)
  }

  /** Bit 7 is set on all digits but the last, and no bits stand between digit and bit 7. */
  predicate Linked(bs: Bytes, b: Base) {
    bs != [] && bs[|bs| - 1] < Radix(b) && forall i :: 0 <= i < |bs| - 1 ==> 128 <= bs[i] < 128 + Radix(b)
  }

  /** The digits of a number: no zero at the end unless it is the only digit. */
  predicate DigitsOf(n: nat, bs: Bytes, b: Base) {
    Linked(bs, b) && (|bs| > 1 ==> bs[|bs| - 1] != 0) && Value(bs, b) == n
  }

  function Scale(b: Base, x: nat): nat { match b case B64 => 64 * x case B128 => 128 * x }

  lemma ScaleIs(b: Base, x: nat, y: nat)
    ensures Scale(b, x) == Radix(b) * x && Scale(b, x + y) == Scale(b, x) + Scale(b, y)
  {
  }

  lemma {:induction false} ValueFront(x: byte, rest: Bytes, b: Base)
    ensures Value([x] + rest, b) == Digit(x, b) + Scale(b, Value(rest, b))
    decreases |rest|
  {
    var bs, k := [x] + rest, |rest|;
    hide Digit;
    if k == 0 {
      assert bs[..0] == [] && Pow(b, 0) == 1;
    } else {
      var d := Digit(rest[k - 1], b);
      assert bs[..k] == [x] + rest[..k - 1] && bs[k] == rest[k - 1];
      ValueFront(x, rest[..k - 1], b);
      NextPlace(d, b, k);
      hide Pow, Scale, Radix;
      ScaleIs(b, Value(rest[..k - 1], b), d * Pow(b, k - 1));
    }
  }

  lemma NextPlace(d: nat, b: Base, k: nat)
    requires k > 0
    ensures d * Pow(b, k) == Scale(b, d * Pow(b, k - 1))
  {
    ScaleIs(b, d * Pow(b, k - 1), 0);
  }

  lemma {:induction false} PowPositive(b: Base, k: nat)
    ensures Pow(b, k) > 0
  {
    if k > 0 { PowPositive(b, k - 1); }
  }

  lemma NotZero(bs: Bytes, b: Base)
    requires bs != [] && Digit(bs[|bs| - 1], b) > 0
    ensures Value(bs, b) > 0
  {
    PowPositive(b, |bs| - 1);
    Product(Digit(bs[|bs| - 1], b), Pow(b, |bs| - 1));
  }

  lemma Product(x: nat, y: nat)
    requires x > 0 && y > 0
    ensures x * y > 0
  {
  }

  /** One digit more in front. */
  lemma DigitInFront(n: nat, x: byte, rest: Bytes, b: Base)
    requires rest != []
    ensures DigitsOf(n, [x] + rest, b) <==>
            && 128 <= x < 128 + Radix(b) && rest[|rest| - 1] != 0 && DigitsOf(Value(rest, b), rest, b)
            && n == x - 128 + Scale(b, Value(rest, b))
  {
    LinkedInFront(x, rest, b);
    ValueFront(x, rest, b);
    hide Value, Scale, Linked, Radix;
    assert ([x] + rest)[|rest|] == rest[|rest| - 1];
  }

  lemma LinkedInFront(x: byte, rest: Bytes, b: Base)
    requires rest != []
    ensures Linked([x] + rest, b) <==> 128 <= x < 128 + Radix(b) && Linked(rest, b)
    ensures Linked([x] + rest, b) ==> Digit(x, b) == x - 128
  {
    var bs := [x] + rest;
    assert bs[|bs| - 1] == rest[|rest| - 1] && bs[0] == x;
    assert forall i :: 0 <= i < |rest| ==> bs[i + 1] == rest[i];
    assert forall i :: 0 < i < |bs| ==> bs[i] == rest[i - 1];
  }

  lemma OneDigit(n: nat, x: byte, b: Base)
    ensures DigitsOf(n, [x], b) <==> x < Radix(b) && n == x
  {
    assert [x][..0] == [] && Pow(b, 0) == 1;
    assert Value([x], b) == Digit(x, b);
  }

  /** Both encoders of numbers, in one. */
  function EncDigits(n: nat, b: Base): (bs: Bytes)
    ensures bs != []
    decreases n
  {
    match b
    case B64 => if n < 64 then [n] else [128 + n % 64] + EncDigits(n / 64, b)
    case B128 => if n < 128 then [n] else [128 + n % 128] + EncDigits(n / 128, b)
  }

  lemma {:induction false} SizeDigits(n: nat)
    ensures EncSize(n) == EncDigits(n, B128)
  {
    if n >= 128 { SizeDigits(n / 128); }
  }

  lemma {:induction false} MagnitudeDigits(m: nat)
    ensures EncMagnitude(m) == EncDigits(m, B64)
  {
    if m >= 64 { MagnitudeDigits(m / 64); }
  }

  lemma ValueOfDigits(n: nat, bs: Bytes, b: Base)
    requires DigitsOf(n, bs, b)
    ensures Value(bs, b) == n
  {
    hide Linked, Value;
  }

  lemma RadixIs(b: Base)
    ensures Radix(b) == 64 || Radix(b) == 128
  {
  }

  lemma LastDigit(n: nat, bs: Bytes, b: Base)
    requires DigitsOf(n, bs, b) && |bs| > 1
    ensures Digit(bs[|bs| - 1], b) > 0
  {
    hide Value;
  }

  lemma EncStep(d: nat, q: nat, b: Base)
    requires d < Radix(b) && q > 0
    ensures EncDigits(d + Scale(b, q), b) == [128 + d] + EncDigits(q, b)
  {
    if b == B64 { assert (d + 64 * q) / 64 == q; } else { assert (d + 128 * q) / 128 == q; }
  }

  lemma {:induction false} DigitsAreEncoded(n: nat, bs: Bytes, b: Base)
    requires DigitsOf(n, bs, b)
    ensures bs == EncDigits(n, b)
    decreases |bs|
  {
    if |bs| == 1 {
      OneDigit(n, bs[0], b);
    } else {
      var rest := bs[1..];
      assert bs == [bs[0]] + rest && rest[|rest| - 1] == bs[|bs| - 1];
      LastDigit(n, bs, b);
      hide EncDigits, DigitsOf, Value, Scale, Digit, Linked;
      DigitInFront(n, bs[0], rest, b);
      DigitsAreEncoded(Value(rest, b), rest, b);
      NotZero(rest, b);
      EncStep(bs[0] - 128, Value(rest, b), b);
    }
  }

  lemma {:induction false} EncodedAreDigits(n: nat, b: Base)
    ensures DigitsOf(n, EncDigits(n, b), b) && (n > 0 ==> EncDigits(n, b)[|EncDigits(n, b)| - 1] != 0)
    decreases n
  {
    if n < Radix(b) {
      OneDigit(n, n, b);
    } else {
      var d, q := if b == B64 then n % 64 else n % 128, if b == B64 then n / 64 else n / 128;
      assert n == d + Scale(b, q) && 0 < q < n && d < Radix(b);
      EncStep(d, q, b);
      hide EncDigits, Scale, Linked, Value, Radix, DigitsOf;
      EncodedAreDigits(q, b);
      var rest := EncDigits(q, b);
      ValueOfDigits(q, rest, b);
      RadixIs(b);
      DigitInFront(n, 128 + d, rest, b);
      assert ([128 + d] + rest)[|rest|] == rest[|rest| - 1];
    }
  }

  /** The encoders of numbers write exactly the digits of the number. */
  lemma DigitsIff(n: nat, bs: Bytes, b: Base)
    ensures DigitsOf(n, bs, b) <==> bs == EncDigits(n, b)
  {
    EncodedAreDigits(n, b);
    if DigitsOf(n, bs, b) { DigitsAreEncoded(n, bs, b); }
    hide DigitsOf, EncDigits;
  }

  // ---------------------------------------------------------------- reading digits

  /** The digits from `pos` on end at `k`. */
  predicate EndsAt(data: Bytes, pos: nat, k: nat) {
    pos <= k < |data| && data[k] < 128 && forall i :: pos <= i < k ==> data[i] >= 128
  }

  /** Sizes are read by the positions of their digits, also when they are longer than the encoder writes them. */
  lemma {:induction false} DecSizeReads(data: Bytes, pos: nat, k: nat)
    requires EndsAt(data, pos, k)
    ensures DecSize(data, pos) == Ok(Value(data[pos..k + 1], B128), k + 1)
    decreases k - pos
  {
    FirstDigit(data, pos, k, B128);
    if pos < k { DecSizeReads(data, pos + 1, k); }
    hide Value;
  }

  /** And so are magnitudes, whatever bit 6 of their bytes. */
  lemma {:induction false} DecMagnitudeReads(data: Bytes, pos: nat, k: nat)
    requires EndsAt(data, pos, k)
    ensures DecMagnitude(data, pos) == Ok(Value(data[pos..k + 1], B64), k + 1)
    decreases k - pos
  {
    FirstDigit(data, pos, k, B64);
    if pos < k { DecMagnitudeReads(data, pos + 1, k); }
    hide Value;
  }

  lemma FirstDigit(data: Bytes, pos: nat, k: nat, b: Base)
    requires pos <= k < |data|
    ensures Value(data[pos..k + 1], b)
         == Digit(data[pos], b) + if pos < k then Scale(b, Value(data[pos + 1..k + 1], b)) else 0
  {
    assert data[pos..k + 1] == [data[pos]] + data[pos + 1..k + 1];
    ValueFront(data[pos], data[pos + 1..k + 1], b);
  }

  /** Nothing else makes them fail than the end of the buffer. */
  lemma {:induction false} DigitsWithoutEnd(data: Bytes, pos: nat)
    requires pos <= |data| && forall i :: pos <= i < |data| ==> data[i] >= 128
    ensures DecSize(data, pos) == Fail && DecMagnitude(data, pos) == Fail
    decreases |data| - pos
  {
    if pos < |data| { DigitsWithoutEnd(data, pos + 1); }
  }

  /** Any byte is a bool, true exactly if it is 1; any byte is a byte. */
  lemma OneByte(front: Bytes, x: byte, rest: Bytes, init: Val)
    ensures Dec(TBool, init, front + [x] + rest, |front|) == Ok(VBool(x == 1), |front| + 1)
    ensures Dec(TByte, init, front + [x] + rest, |front|) == Ok(VByte(x), |front| + 1)
  {
  }

  /** An integer is read from its digits and bit 6 of its first byte, reduced to its type. */
  lemma DecIntReads(w: Width, signed: bool, data: Bytes, pos: nat, k: nat)
    requires EndsAt(data, pos, k)
    ensures var m := Wrap(w, signed, Value(data[pos..k + 1], B64));
            DecInt(w, signed, data, pos) == Ok(if data[pos] / 64 % 2 == 1 then Wrap(w, signed, -m) else m, k + 1)
  {
    DecMagnitudeReads(data, pos, k);
    hide Wrap, Value, DecMagnitude;
  }

  /** A struct at the end of the buffer or of size zero leaves its target alone, one that announces more than there is
      fails, and any other that is read takes at least what it announces. */
  lemma StructReads(ty: Ty, init: Val, data: Bytes, pos: nat)
    requires ty.TStruct? && pos <= |data|
    ensures var r, size := Dec(ty, init, data, pos), DecSize(data, pos);
            && (pos == |data| ==> r == Ok(VStruct(FieldsOf(init, ty.fields)), pos))
            && (size.Ok? && size.value == 0 ==> r == Ok(VStruct(FieldsOf(init, ty.fields)), size.pos))
            && (size.Ok? && size.value > |data| - size.pos ==> r == Fail)
            && (pos < |data| && size == Fail ==> r == Fail)
            && (size.Ok? && r.Ok? ==> r.pos >= size.pos + size.value)
  {
    hide DecSize;
    var size := DecSize(data, pos);
    if size.Ok? { FieldsTakeAll(ty, FieldsOf(init, ty.fields), |ty.fields|, data, size.pos, size.value); }
    hide DecFields;
  }

  lemma {:induction false} FieldsTakeAll(ty: Ty, cur: seq<Val>, i: nat, data: Bytes, flag: nat, size: nat)
    requires ty.TStruct? && i <= |ty.fields| == |cur| && flag <= |data|
    ensures var r := DecFields(ty, cur, i, data, flag, size); r.Stopped? ==> r.pos >= flag + size
    decreases i
  {
    hide Dec;
    if i > 0 { FieldsTakeAll(ty, cur, i - 1, data, flag, size); }
  }

  // ---------------------------------------------------------------- objects

  function Flatten(parts: seq<Bytes>): Bytes {
    if parts == [] then [] else Flatten(parts[..|parts| - 1]) + parts[|parts| - 1]
  }

  predicate SizeWire(n: nat, bs: Bytes) { DigitsOf(n, bs, B128) }

  /** The magnitude to the base 64, with bit 6 of the first byte for the sign. */
  predicate IntWire(v: int, bs: Bytes) {
    && bs != []
    && (bs[0] / 64 % 2 == 1 <==> v < 0)
    && DigitsOf(if v < 0 then -v else v, if v < 0 then [bs[0] - 64] + bs[1..] else bs, B64)
  }

  /** A size and what it counts. */
  ghost predicate Sized(n: nat, bs: Bytes, rest: Bytes) {
    exists size :: SizeWire(n, size) && bs == size + rest
  }

  /** What is on the wire for an object: a bool is one byte, 1 or 0; a byte is itself; a string, an array, a list, a map
      or a set is its length and its elements; a struct is the number of its bytes and its fields. */
  ghost predicate Wire(o: Obj, bs: Bytes)
    decreases o, 1
  {
    match o
    case OBool(b) => bs == (if b then [1] else [0])
    case OByte(c) => bs == [c]
    case OInt(n) => IntWire(n, bs)
    case OString(s) => Sized(|s|, bs, s)
    case OSeq(os) => exists parts :: InOrder(os, parts) && Sized(|os|, bs, Flatten(parts))
    case OForwardList(fs) => exists parts :: LastFirst(fs, parts) && Sized(|fs|, bs, Flatten(parts))
    case OMap(es) => exists parts :: KeyBeforeValue(es, parts) && Sized(|es|, bs, Flatten(parts))
    case OSet(xs) => exists parts :: InOrder(xs, parts) && Sized(|xs|, bs, Flatten(parts))
    case OStruct(os) => exists parts :: InOrder(os, parts) && Sized(|Flatten(parts)|, bs, Flatten(parts))
  }

  ghost predicate InOrder(os: seq<Obj>, parts: seq<Bytes>)
    decreases os, 0
  {
    |parts| == |os| && forall i :: 0 <= i < |os| ==> Wire(os[i], parts[i])
  }

  /** The elements of a forward list. */
  ghost predicate LastFirst(fs: seq<Obj>, parts: seq<Bytes>)
    decreases fs, 0
  {
    |parts| == |fs| && forall i :: 0 <= i < |fs| ==> Wire(fs[i], parts[|fs| - 1 - i])
  }

  /** The entries of a map. */
  ghost predicate KeyBeforeValue(es: seq<Entry>, parts: seq<Bytes>)
    decreases es, 0
  {
    |parts| == 2 * |es| && forall i :: 0 <= i < |es| ==> EntryWire(es[i], parts[2 * i], parts[2 * i + 1])
  }

  ghost predicate EntryWire(e: Entry, key: Bytes, value: Bytes)
    decreases e, 0
  {
    Wire(e.key, key) && Wire(e.value, value)
  }

  lemma SizedIff(n: nat, bs: Bytes, rest: Bytes)
    ensures Sized(n, bs, rest) <==> bs == EncSize(n) + rest
  {
    SizeDigits(n);
    DigitsIff(n, EncSize(n), B128);
    if Sized(n, bs, rest) {
      var size :| SizeWire(n, size) && bs == size + rest;
      DigitsIff(n, size, B128);
    }
    hide DigitsOf, EncSize;
  }

  lemma IntIff(v: int, bs: Bytes)
    ensures IntWire(v, bs) <==> bs == EncInt(v)
  {
    hide IntWire, EncInt;
    if v < 0 { NegativeIff(v, bs); } else { PositiveIff(v, bs); }
  }

  lemma PositiveIff(v: nat, bs: Bytes)
    ensures IntWire(v, bs) <==> bs == EncInt(v)
  {
    MagnitudeDigits(v);
    DigitsIff(v, bs, B64);
    hide DigitsOf, EncDigits;
    assert EncInt(v) == EncMagnitude(v);
    hide EncMagnitude;
  }

  lemma NegativeIff(v: int, bs: Bytes)
    requires v < 0
    ensures IntWire(v, bs) <==> bs == EncInt(v)
  {
    var m := EncMagnitude(-v);
    MagnitudeDigits(-v);
    hide DigitsOf, EncDigits, EncMagnitude;
    assert EncInt(v) == [m[0] + 64] + m[1..];
    if bs != [] && bs[0] / 64 % 2 == 1 {
      DigitsIff(-v, [bs[0] - 64] + bs[1..], B64);
      assert bs == [bs[0]] + bs[1..] && m == [m[0]] + m[1..];
    }
  }

  // ---------------------------------------------------------------- the encoder writes that and nothing else

  lemma {:induction false} FlattenEncodings(os: seq<Obj>, parts: seq<Bytes>, n: nat)
    requires n <= |os| == |parts| && forall i :: 0 <= i < n ==> parts[i] == Enc(os[i])
    ensures Flatten(parts[..n]) == EncAll(os, n)
    decreases n
  {
    if n > 0 {
      FlattenEncodings(os, parts, n - 1);
      assert parts[..n][..n - 1] == parts[..n - 1];
    }
    hide Enc;
  }

  lemma {:induction false} FlattenBackwards(fs: seq<Obj>, parts: seq<Bytes>, n: nat)
    requires n <= |fs| == |parts| && forall i :: 0 <= i < n ==> parts[n - 1 - i] == Enc(fs[i])
    ensures Flatten(parts[..n]) == EncBack(fs, n)
    decreases n
  {
    if n > 0 {
      FlattenFront(parts[..n]);
      assert parts[..n][1..] == parts[1..n];
      var rest := parts[1..] + [[]];
      forall i | 0 <= i < n - 1 ensures rest[n - 2 - i] == Enc(fs[i]) { assert rest[n - 2 - i] == parts[n - 1 - i]; }
      FlattenBackwards(fs, rest, n - 1);
      assert rest[..n - 1] == parts[1..n];
    }
    hide Enc;
  }

  lemma {:induction false} FlattenFront(parts: seq<Bytes>)
    requires parts != []
    ensures Flatten(parts) == parts[0] + Flatten(parts[1..])
    decreases |parts|
  {
    var k := |parts| - 1;
    if k == 0 {
      assert parts[..0] == [] && parts[1..] == [];
    } else {
      FlattenFront(parts[..k]);
      assert parts[..k][1..] == parts[1..][..k - 1] && parts[1..][k - 1] == parts[k];
      assert Flatten(parts[1..]) == Flatten(parts[1..][..k - 1]) + parts[k];
      assert Flatten(parts) == Flatten(parts[..k]) + parts[k];
      hide Flatten;
    }
  }

  lemma {:induction false} FlattenEntries(es: seq<Entry>, parts: seq<Bytes>, n: nat)
    requires n <= |es| && |parts| == 2 * |es|
    requires forall i :: 0 <= i < n ==> parts[2 * i] == Enc(es[i].key) && parts[2 * i + 1] == Enc(es[i].value)
    ensures Flatten(parts[..2 * n]) == EncEntries(es, n)
    decreases n
  {
    if n > 0 {
      FlattenEntries(es, parts, n - 1);
      var k := 2 * n - 2;
      assert EncEntry(es[n - 1]) == parts[k] + parts[k + 1];
      assert EncEntries(es, n) == EncEntries(es, n - 1) + EncEntry(es[n - 1]);
      hide EncEntries, EncEntry, Enc;
      assert parts[..k + 1][..k] == parts[..k] && parts[..k + 2][..k + 1] == parts[..k + 1];
      assert Flatten(parts[..k + 1]) == Flatten(parts[..k]) + parts[k];
      assert Flatten(parts[..k + 2]) == Flatten(parts[..k + 1]) + parts[k + 1];
      hide Flatten;
    }
  }

  function Encodings(os: seq<Obj>): (parts: seq<Bytes>)
    ensures |parts| == |os|
  {
    seq(|os|, i requires 0 <= i < |os| => Enc(os[i]))
  }

  function Backwards(fs: seq<Obj>): (parts: seq<Bytes>)
    ensures |parts| == |fs|
  {
    seq(|fs|, i requires 0 <= i < |fs| => Enc(fs[|fs| - 1 - i]))
  }

  function Entries(es: seq<Entry>): (parts: seq<Bytes>)
    ensures |parts| == 2 * |es|
  {
    seq(2 * |es|, i requires 0 <= i < 2 * |es| => Enc(if i % 2 == 0 then es[i / 2].key else es[i / 2].value))
  }

  lemma {:induction false} InOrderIff(os: seq<Obj>, parts: seq<Bytes>)
    ensures InOrder(os, parts) <==> parts == Encodings(os)
    decreases os, 0
  {
    if |parts| == |os| {
      forall i | 0 <= i < |os| ensures Wire(os[i], parts[i]) <==> parts[i] == Enc(os[i]) { WireIff(os[i], parts[i]); }
    }
    hide Wire, Enc;
  }

  lemma {:induction false} LastFirstIff(fs: seq<Obj>, parts: seq<Bytes>)
    ensures LastFirst(fs, parts) <==> parts == Backwards(fs)
    decreases fs, 0
  {
    hide Wire, Enc;
    var n := |fs|;
    if |parts| == n {
      forall i | 0 <= i < n ensures Wire(fs[i], parts[n - 1 - i]) <==> parts[n - 1 - i] == Enc(fs[i]) {
        WireIff(fs[i], parts[n - 1 - i]);
      }
      if LastFirst(fs, parts) {
        forall i | 0 <= i < n ensures parts[i] == Backwards(fs)[i] { assert parts[n - 1 - (n - 1 - i)] == parts[i]; }
      }
    }
  }

  lemma {:induction false} EntryIff(e: Entry, key: Bytes, value: Bytes)
    ensures EntryWire(e, key, value) <==> key == Enc(e.key) && value == Enc(e.value)
    decreases e, 0
  {
    WireIff(e.key, key);
    WireIff(e.value, value);
    hide Wire, Enc;
  }

  /** Keys at even places, values behind them. */
  lemma EntryPlaces(es: seq<Entry>, i: nat)
    requires i < |es|
    ensures Entries(es)[2 * i] == Enc(es[i].key) && Entries(es)[2 * i + 1] == Enc(es[i].value)
  {
    assert 2 * i / 2 == i && 2 * i % 2 == 0 && (2 * i + 1) / 2 == i && (2 * i + 1) % 2 == 1;
    hide Enc;
  }

  lemma {:induction false} KeyBeforeValueIff(es: seq<Entry>, parts: seq<Bytes>)
    ensures KeyBeforeValue(es, parts) <==> parts == Entries(es)
    decreases es, 0
  {
    hide EntryWire, Enc, Entries;
    if |parts| == 2 * |es| {
      forall i | 0 <= i < |es|
        ensures EntryWire(es[i], parts[2 * i], parts[2 * i + 1])
           <==> parts[2 * i] == Entries(es)[2 * i] && parts[2 * i + 1] == Entries(es)[2 * i + 1]
      {
        EntryIff(es[i], parts[2 * i], parts[2 * i + 1]);
        EntryPlaces(es, i);
      }
      if KeyBeforeValue(es, parts) {
        forall k | 0 <= k < 2 * |es| ensures parts[k] == Entries(es)[k] {
          var i := k / 2;
          assert EntryWire(es[i], parts[2 * i], parts[2 * i + 1]) && (k == 2 * i || k == 2 * i + 1);
        }
      }
    }
  }

  lemma Flattened(os: seq<Obj>)
    ensures Flatten(Encodings(os)) == EncAll(os, |os|)
  {
    hide Enc;
    FlattenEncodings(os, Encodings(os), |os|);
    assert Encodings(os)[..|os|] == Encodings(os);
  }

  lemma FlattenedBackwards(fs: seq<Obj>)
    ensures Flatten(Backwards(fs)) == EncBack(fs, |fs|)
  {
    hide Enc;
    FlattenBackwards(fs, Backwards(fs), |fs|);
    assert Backwards(fs)[..|fs|] == Backwards(fs);
  }

  lemma FlattenedEntries(es: seq<Entry>)
    ensures Flatten(Entries(es)) == EncEntries(es, |es|)
  {
    hide Enc;
    forall i | 0 <= i < |es| ensures Entries(es)[2 * i] == Enc(es[i].key) && Entries(es)[2 * i + 1] == Enc(es[i].value)
    {
      EntryPlaces(es, i);
    }
    hide Entries;
    FlattenEntries(es, Entries(es), |es|);
    assert Entries(es)[..2 * |es|] == Entries(es);
  }

  lemma {:induction false} ArrayIff(o: Obj, bs: Bytes)
    requires o.OSeq?
    ensures Wire(o, bs) <==> bs == Enc(o)
    decreases o, 0
  {
    hide InOrder, Encodings, Sized, EncSize, Flatten;
    var xs := o.os;
    InOrderIff(xs, Encodings(xs));
    Flattened(xs);
    SizedIff(|xs|, bs, Flatten(Encodings(xs)));
    if Wire(o, bs) {
      var parts :| InOrder(xs, parts) && Sized(|xs|, bs, Flatten(parts));
      InOrderIff(xs, parts);
    }
  }

  lemma {:induction false} SetIff(o: Obj, bs: Bytes)
    requires o.OSet?
    ensures Wire(o, bs) <==> bs == Enc(o)
    decreases o, 0
  {
    hide InOrder, Encodings, Sized, EncSize, Flatten;
    var xs := o.xs;
    InOrderIff(xs, Encodings(xs));
    Flattened(xs);
    SizedIff(|xs|, bs, Flatten(Encodings(xs)));
    if Wire(o, bs) {
      var parts :| InOrder(xs, parts) && Sized(|xs|, bs, Flatten(parts));
      InOrderIff(xs, parts);
    }
  }

  lemma {:induction false} StructIff(o: Obj, bs: Bytes)
    requires o.OStruct?
    ensures Wire(o, bs) <==> bs == Enc(o)
    decreases o, 0
  {
    hide InOrder, Encodings, Sized, EncSize, Flatten;
    var xs := o.fields;
    InOrderIff(xs, Encodings(xs));
    Flattened(xs);
    SizedIff(|Flatten(Encodings(xs))|, bs, Flatten(Encodings(xs)));
    if Wire(o, bs) {
      var parts :| InOrder(xs, parts) && Sized(|Flatten(parts)|, bs, Flatten(parts));
      InOrderIff(xs, parts);
    }
  }

  lemma {:induction false} ForwardListIff(o: Obj, bs: Bytes)
    requires o.OForwardList?
    ensures Wire(o, bs) <==> bs == Enc(o)
    decreases o, 0
  {
    hide LastFirst, Backwards, Sized, EncSize, Flatten;
    var xs := o.fs;
    LastFirstIff(xs, Backwards(xs));
    FlattenedBackwards(xs);
    SizedIff(|xs|, bs, Flatten(Backwards(xs)));
    if Wire(o, bs) {
      var parts :| LastFirst(xs, parts) && Sized(|xs|, bs, Flatten(parts));
      LastFirstIff(xs, parts);
    }
  }

  lemma {:induction false} MapIff(o: Obj, bs: Bytes)
    requires o.OMap?
    ensures Wire(o, bs) <==> bs == Enc(o)
    decreases o, 0
  {
    hide KeyBeforeValue, Entries, Sized, EncSize, Flatten;
    var xs := o.entries;
    KeyBeforeValueIff(xs, Entries(xs));
    FlattenedEntries(xs);
    SizedIff(|xs|, bs, Flatten(Entries(xs)));
    if Wire(o, bs) {
      var parts :| KeyBeforeValue(xs, parts) && Sized(|xs|, bs, Flatten(parts));
      KeyBeforeValueIff(xs, parts);
    }
  }

  /** The bytes of an object, exactly. */
  lemma {:induction false} WireIff(o: Obj, bs: Bytes)
    ensures Wire(o, bs) <==> bs == Enc(o)
    decreases o, 1
  {
    match o
    case OBool(_) =>
    case OByte(_) =>
    case OInt(n) => IntIff(n, bs);
    case OString(s) => SizedIff(|s|, bs, s);
    case OSeq(_) => ArrayIff(o, bs);
    case OForwardList(_) => ForwardListIff(o, bs);
    case OMap(_) => MapIff(o, bs);
    case OSet(_) => SetIff(o, bs);
    case OStruct(_) => StructIff(o, bs);
  }
}
