/** The serializer as the C++ code runs it: encoders append to or insert into a string in place, decoders
    advance a shared cursor. Every method is proved against the functions of module Serial. */
module SerialCodec {
  import opened Bits
  import opened Serial

  /** `std::string &ret`. */
  class Output {
    var data: Bytes

    constructor ()
      ensures data == []
    {
      data := [];
    }

    method Append(bs: Bytes)
      modifies this
      ensures data == old(data) + bs
    {
      data := data + bs;
    }

    method Insert(pos: nat, bs: Bytes)
      requires pos <= |data|
      modifies this
      ensures data == old(data)[..pos] + bs + old(data)[pos..]
    {
      data := data[..pos] + bs + data[pos..];
    }
  }

  /** `std::size_t &cost_len`. */
  class Cursor {
    var costLen: nat

    constructor ()
      ensures costLen == 0
    {
      costLen := 0;
    }
  }

  // ---------------------------------------------------------------- encoders

  lemma InsertBetween(before: Bytes, written: Bytes, after: Bytes, bs: Bytes)
    ensures
      var data, at := before + written + after, |before| + |written|;
      && data[..at] + bs + data[at..] == before + (written + bs) + after
      && (after == [] ==> data + bs == before + (written + bs) + after)
  {
    var data, at := before + written + after, |before| + |written|;
    assert data[..at] == before + written && data[at..] == after;
  }

  lemma Append3(a: Bytes, b: Bytes, c: Bytes)
    ensures (a + b) + c == a + (b + c)
  {
  }

  /** Appends the size, or inserts it at `pos` when `back` is false. */
  method EncodeSize(n: nat, ret: Output, back: bool, pos: nat)
    requires pos <= |ret.data|
    modifies ret
    ensures ret.data ==
      if back then old(ret.data) + EncSize(n) else old(ret.data)[..pos] + EncSize(n) + old(ret.data)[pos..]
  {
    var start := if back then |ret.data| else pos;
    ghost var before, after := ret.data[..start], ret.data[start..];
    ghost var written: Bytes := [];
    assert ret.data == before + written + after;
    var len, at := n, start;
    var more := true;
    while more
      invariant ret.data == before + written + after && at == start + |written| && |before| == start
      invariant EncSize(n) == written + if more then EncSize(len) else []
      invariant back ==> after == []
      decreases more, len
    {
      ghost var rest := len;
      var ch: byte := len % 128;
      len := len / 128;
      if len > 0 {
        ch := ch + 128;
      }
      InsertBetween(before, written, after, [ch]);
      if back {
        ret.Append([ch]);
      } else {
        ret.Insert(at, [ch]);
      }
      at := at + 1;
      more := len > 0;
      SizeDigit(rest, written);
      written := written + [ch];
    }
    assert back ==> before == old(ret.data) && before + EncSize(n) + after == before + EncSize(n);
  }

  lemma SizeDigit(rest: nat, written: Bytes)
    ensures written + EncSize(rest) ==
      if rest / 128 > 0 then written + [128 + rest % 128] + EncSize(rest / 128) else written + [rest % 128] + []
  {
  }

  lemma MagnitudeDigit(rest: nat, written: Bytes)
    ensures written + EncMagnitude(rest) ==
      if rest / 64 > 0 then written + [128 + rest % 64] + EncMagnitude(rest / 64) else written + [rest % 64] + []
  {
  }

  /** The sign goes into the first byte after all digits are out. */
  method EncodeInteger(val: int, ret: Output)
    modifies ret
    ensures ret.data == old(ret.data) + EncInt(val)
  {
    var flag := val < 0;
    var size := |ret.data|;
    var value: nat := if flag then -val else val;
    ghost var written: Bytes, magnitude := [], value;
    var more := true;
    while more
      invariant ret.data == old(ret.data) + written
      invariant EncMagnitude(magnitude) == written + if more then EncMagnitude(value) else []
      decreases more, value
    {
      ghost var rest := value;
      var ch: byte := value % 64;
      value := value / 64;
      if value > 0 {
        ch := ch + 128;
      }
      ret.Append([ch]);
      more := value > 0;
      MagnitudeDigit(rest, written);
      Append3(old(ret.data), written, [ch]);
      written := written + [ch];
    }
    assert written == EncMagnitude(magnitude);
    if flag {
      ret.data := ret.data[size := ret.data[size] + 64];
    }
  }

  method EncodeField(o: Obj, ret: Output)
    modifies ret
    ensures ret.data == old(ret.data) + Enc(o)
    decreases o, 1
  {
    match o
    case OBool(b) => ret.Append([if b then 1 else 0]);
    case OByte(c) => ret.Append([c]);
    case OInt(n) => EncodeInteger(n, ret);
    case OString(s) =>
      EncodeSize(|s|, ret, true, 0);
      ret.Append(s);
    case OSeq(os) => EncodeVector(os, ret);
    case OForwardList(fs) => EncodeForwardList(fs, ret);
    case OMap(es) => EncodeMap(es, ret);
    case OSet(xs) => EncodeVector(xs, ret);
    case OStruct(os) => EncodeStruct(os, ret);
  }

  method EncodeVector(os: seq<Obj>, ret: Output)
    modifies ret
    ensures ret.data == old(ret.data) + EncVector(os)
    decreases os, 0
  {
    hide Enc, EncSize;
    EncodeSize(|os|, ret, true, 0);
    ghost var start := ret.data;
    for i := 0 to |os|
      invariant ret.data == start + EncAll(os, i)
    {
      EncodeField(os[i], ret);
      Append3(start, EncAll(os, i), Enc(os[i]));
    }
    Append3(old(ret.data), EncSize(|os|), EncAll(os, |os|));
  }

  method EncodeMap(es: seq<Entry>, ret: Output)
    modifies ret
    ensures ret.data == old(ret.data) + EncMap(es)
    decreases es, 0
  {
    hide Enc, EncSize;
    EncodeSize(|es|, ret, true, 0);
    ghost var start := ret.data;
    for i := 0 to |es|
      invariant ret.data == start + EncEntries(es, i)
    {
      EncodeEntry(es[i], ret);
      Append3(start, EncEntries(es, i), EncEntry(es[i]));
    }
    Append3(old(ret.data), EncSize(|es|), EncEntries(es, |es|));
  }

  method EncodeEntry(e: Entry, ret: Output)
    modifies ret
    ensures ret.data == old(ret.data) + EncEntry(e)
    decreases e, 0
  {
    hide Enc, EncSize;
    EncodeField(e.key, ret);
    EncodeField(e.value, ret);
  }

  /** Every element is encoded aside and inserted in front of its predecessors, the size in front of all. */
  method EncodeForwardList(fs: seq<Obj>, ret: Output)
    modifies ret
    ensures ret.data == old(ret.data) + EncForwardList(fs)
    decreases fs, 0
  {
    hide Enc, EncSize;
    var begin := |ret.data|;
    var size := 0;
    while size < |fs|
      invariant size <= |fs|
      invariant ret.data == old(ret.data) + EncBack(fs, size)
    {
      var tmp := new Output();
      EncodeField(fs[size], tmp);
      ret.Insert(begin, tmp.data);
      assert ret.data[..begin] == old(ret.data);
      size := size + 1;
    }
    EncodeSize(size, ret, false, begin);
  }

  /** The length of the body is inserted in front of it once it is known. */
  method EncodeStruct(os: seq<Obj>, ret: Output)
    modifies ret
    ensures ret.data == old(ret.data) + EncStruct(os)
    decreases os, 0
  {
    hide Enc, EncSize;
    var oldSizeFlag := |ret.data|;
    for i := 0 to |os|
      invariant ret.data == old(ret.data) + EncAll(os, i)
    {
      EncodeField(os[i], ret);
    }
    EncodeSize(|ret.data| - oldSizeFlag, ret, false, oldSizeFlag);
  }

  // ---------------------------------------------------------------- decoders

  /** `whole` is what a digit loop yields when the digits read so far are worth `val` and `rest` is what
      the remaining digits yield, `n` bits further up. */
  predicate Continued(whole: Result<nat>, val: nat, n: nat, rest: Result<nat>) {
    match rest
    case Fail => whole == Fail
    case Ok(v, p) => whole == Ok(val + Shift(v, n), p)
  }

  lemma NextDigit(whole: Result<nat>, val: nat, n: nat, digit: nat, k: nat, next: Result<nat>)
    requires k == 6 || k == 7
    requires Continued(whole, val, n,
                       if next.Ok? then Ok(digit + (if k == 6 then 64 else 128) * next.value, next.pos) else Fail)
    ensures Continued(whole, val + Shift(digit, n), n + k, next)
  {
    if next.Ok? {
      Powers();
      Pow2Sum(n, k);
      hide Pow2;
      Distributes(digit, Pow2(k), next.value, Pow2(n));
    }
  }

  lemma Distributes(d: nat, base: nat, v: nat, p: nat)
    ensures (d + base * v) * p == d * p + v * (p * base)
  {
    assert base * v * p == v * (p * base);
  }

  lemma LastDigit(whole: Result<nat>, val: nat, n: nat, digit: nat, pos: nat)
    requires Continued(whole, val, n, Ok(digit, pos))
    ensures whole == Ok(val + Shift(digit, n), pos)
  {
  }

  lemma FailedDigit(whole: Result<nat>, val: nat, n: nat)
    requires Continued(whole, val, n, Fail)
    ensures whole == Fail
  {
  }

  lemma FirstDigit(whole: Result<nat>)
    ensures Continued(whole, 0, 0, whole) && Pow2(0) == 1
  {
  }

  lemma Powers()
    ensures Pow2(6) == 0x40 && Pow2(7) == 0x80
    ensures Pow2(16) == 0x1_0000 && Pow2(32) == 0x1_0000_0000 && Pow2(64) == 0x1_0000_0000_0000_0000
  {
    assert Pow2(3) == 8 && Pow2(4) == 16;
    Pow2Sum(3, 3);
    Pow2Sum(3, 4);
    Pow2Sum(4, 4);
    Pow2Sum(8, 8);
    Pow2Sum(16, 16);
    Pow2Sum(32, 32);
  }

  /** One more digit of `k` bits above `n`. */
  lemma DigitFits(m: nat, d: nat, n: nat, k: nat)
    requires m < Pow2(n) && (if k == 6 then d < 64 else k == 7 && d < 128)
    ensures m + Shift(d, n) < Pow2(n + k)
  {
    Powers();
    Pow2Sum(n, k);
    hide Pow2;
    Monotone(Pow2(n), d + 1, Pow2(k));
  }

  lemma ContinueSize(data: Bytes, pos: nat)
    requires pos < |data|
    ensures data[pos] < 128 ==> DecSize(data, pos) == Ok(data[pos], pos + 1)
    ensures data[pos] >= 128 ==>
      var r := DecSize(data, pos + 1);
      DecSize(data, pos) == if r.Ok? then Ok(data[pos] % 128 + 128 * r.value, r.pos) else Fail
    ensures pos + 1 == |data| ==> DecSize(data, pos + 1).Fail?
  {
  }

  lemma ContinueMagnitude(data: Bytes, pos: nat)
    requires pos < |data|
    ensures data[pos] < 128 ==> DecMagnitude(data, pos) == Ok(data[pos] % 64, pos + 1)
    ensures data[pos] >= 128 ==>
      var r := DecMagnitude(data, pos + 1);
      DecMagnitude(data, pos) == if r.Ok? then Ok(data[pos] % 64 + 64 * r.value, r.pos) else Fail
    ensures pos + 1 == |data| ==> DecMagnitude(data, pos + 1).Fail?
  {
  }

  /** One turn of the size loop, at `p`, `n` bits up. */
  lemma SizeStep(data: Bytes, p: nat, whole: Result<nat>, val: nat, n: nat)
    requires p < |data| && val < Pow2(n) && Continued(whole, val, n, DecSize(data, p))
    ensures var val' := Or(val, Shift(data[p] % 128, n));
            && val' < Pow2(n + 7)
            && (data[p] < 128 ==> whole == Ok(val', p + 1))
            && (data[p] >= 128 ==> Continued(whole, val', n + 7, DecSize(data, p + 1)))
            && (data[p] >= 128 && p + 1 == |data| ==> whole == Fail)
  {
    var b: nat := data[p];
    hide Continued, DecSize, Or, Pow2, Shift;
    ContinueSize(data, p);
    OrAbove(val, b % 128, n);
    DigitFits(val, b % 128, n, 7);
    if b < 128 {
      LastDigit(whole, val, n, b, p + 1);
    } else {
      NextDigit(whole, val, n, b % 128, 7, DecSize(data, p + 1));
      if p + 1 == |data| { FailedDigit(whole, val + Shift(b % 128, n), n + 7); }
    }
  }

  method DecodeSize(data: Bytes, c: Cursor) returns (ok: bool, val: nat)
    requires c.costLen <= |data|
    modifies c
    ensures
      match DecSize(data, old(c.costLen))
      case Fail => !ok && c.costLen == old(c.costLen)
      case Ok(v, p) => ok && val == v && c.costLen == p
  {
    ok, val := false, 0;
    if |data| < c.costLen + 1 {
      assert DecSize(data, c.costLen).Fail?;
      return;
    }
    var start, i: nat := c.costLen, 0;
    ghost var whole := DecSize(data, start);
    FirstDigit(whole);
    hide Continued, DecSize, Or, Pow2, Shift;
    while true
      invariant start == c.costLen && start + i < |data|
      invariant val < Pow2(7 * i) && Continued(whole, val, 7 * i, DecSize(data, start + i))
      decreases |data| - i
    {
      var b: nat := data[start + i];
      SizeStep(data, start + i, whole, val, 7 * i);
      val := Or(val, Shift(b % 128, 7 * i));
      i := i + 1;
      if b >= 128 {
        if i >= |data| - start {
          return;
        }
      } else {
        break;
      }
    }
    c.costLen := start + i;
    ok := true;
  }

  // ---------------------------------------------------------------- or-ing digits into a variable of the C++ type

  /** Conversion of any integer to `std::size_t`: a negative value is sign-extended. */
  function SizeT(x: int): nat { x % 0x1_0000_0000_0000_0000 }

  /** `val |= (std::size_t) digit << n` on a variable of the C++ type. */
  function OrInto(w: Width, signed: bool, val: int, digit: nat, n: nat): int {
    Wrap(w, signed, Or(SizeT(val), SizeT(Shift(digit, n))))
  }

  function WidthBits(w: Width): nat {
    match w case W16 => 16 case W32 => 32 case W64 => 64
  }

  lemma ResidueIsLow(w: Width, x: int)
    ensures Residue(w, x) == Low(x, WidthBits(w))
  {
    Powers();
    hide Pow2;
  }

  /** The low bits survive the conversion to `std::size_t`. */
  lemma SizeTKeepsLow(w: Width, x: int)
    ensures Residue(w, SizeT(x)) == Residue(w, x)
  {
    var q := x / 0x1_0000_0000_0000_0000;
    Low16(0x1_0000_0000_0000 * q, SizeT(x));
    Low32(0x1_0000_0000 * q, SizeT(x));
  }

  lemma Low16(q: int, r: int)
    ensures (0x1_0000 * q + r) % 0x1_0000 == r % 0x1_0000
  {
  }

  lemma Low32(q: int, r: int)
    ensures (0x1_0000_0000 * q + r) % 0x1_0000_0000 == r % 0x1_0000_0000
  {
  }

  lemma WrapKeepsLow(w: Width, signed: bool, x: int, y: int)
    ensures Residue(w, Wrap(w, signed, x)) == Residue(w, x)
    ensures Residue(w, x) == Residue(w, y) ==> Wrap(w, signed, x) == Wrap(w, signed, y)
  {
  }

  /** One turn of the integer loop: the sign extension and the truncation of every step lose nothing that counts. */
  lemma OrIntoAdds(w: Width, signed: bool, m: nat, d: nat, n: nat)
    requires m < Pow2(n)
    ensures OrInto(w, signed, Wrap(w, signed, m), d, n) == Wrap(w, signed, m + Shift(d, n))
  {
    OrAbove(m, d, n);
    hide Pow2, Or, Residue, SizeT, WidthBits, Low, Wrap, Shift;
    var v, digit, bits := Wrap(w, signed, m), Shift(d, n), WidthBits(w);
    var a, b := SizeT(v), SizeT(digit);
    WrapKeepsLow(w, signed, m, m);
    SizeTKeepsLow(w, v);
    SizeTKeepsLow(w, digit);
    ResidueIsLow(w, a);
    ResidueIsLow(w, m);
    ResidueIsLow(w, b);
    ResidueIsLow(w, digit);
    ResidueIsLow(w, Or(a, b));
    ResidueIsLow(w, m + digit);
    OrLow(a, b, bits);
    OrLow(m, digit, bits);
    WrapKeepsLow(w, signed, Or(a, b), m + digit);
  }

  /** One turn of the integer loop, at `p`, `n` bits up; `m` is the magnitude so far. */
  lemma IntegerStep(w: Width, signed: bool, data: Bytes, p: nat, whole: Result<nat>, m: nat, n: nat)
    requires p < |data| && m < Pow2(n) && Continued(whole, m, n, DecMagnitude(data, p))
    ensures var m' := m + Shift(data[p] % 64, n);
            && m' < Pow2(n + 6) && OrInto(w, signed, Wrap(w, signed, m), data[p] % 64, n) == Wrap(w, signed, m')
            && (data[p] < 128 ==> whole == Ok(m', p + 1))
            && (data[p] >= 128 ==> Continued(whole, m', n + 6, DecMagnitude(data, p + 1)))
            && (data[p] >= 128 && p + 1 == |data| ==> whole == Fail)
  {
    var b: nat := data[p];
    hide Continued, DecMagnitude, Wrap, OrInto, Pow2, Shift;
    ContinueMagnitude(data, p);
    OrIntoAdds(w, signed, m, b % 64, n);
    DigitFits(m, b % 64, n, 6);
    if b < 128 {
      LastDigit(whole, m, n, b % 64, p + 1);
    } else {
      NextDigit(whole, m, n, b % 64, 6, DecMagnitude(data, p + 1));
      if p + 1 == |data| { FailedDigit(whole, m + Shift(b % 64, n), n + 6); }
    }
  }

  /** The digit loop: how many bytes the magnitude takes, 0 when the buffer ends first, and the variable of the C++
      type that the digits were or-ed into. */
  method OrDigits(w: Width, signed: bool, data: Bytes, start: nat) returns (i: nat, val: int)
    requires start < |data|
    ensures i == 0 ==> DecMagnitude(data, start) == Fail
    ensures i > 0 ==>
      DecMagnitude(data, start).Ok? && DecMagnitude(data, start).pos == start + i
      && val == Wrap(w, signed, DecMagnitude(data, start).value)
  {
    i, val := 0, 0;
    ghost var whole, m: nat := DecMagnitude(data, start), 0;
    FirstDigit(whole);
    assert Wrap(w, signed, 0) == 0;
    hide Continued, DecMagnitude, Wrap, OrInto, Pow2, Shift;
    while true
      invariant start + i < |data| && m < Pow2(6 * i) && val == Wrap(w, signed, m)
      invariant Continued(whole, m, 6 * i, DecMagnitude(data, start + i))
      decreases |data| - i
    {
      var b: nat := data[start + i];
      IntegerStep(w, signed, data, start + i, whole, m, 6 * i);
      val := OrInto(w, signed, val, b % 64, 6 * i);
      m := m + Shift(b % 64, 6 * i);
      i := i + 1;
      if b >= 128 {
        if i >= |data| - start {
          return 0, val;
        }
      } else {
        break;
      }
    }
  }

  method DecodeInteger(w: Width, signed: bool, data: Bytes, c: Cursor) returns (ok: bool, val: int)
    requires c.costLen <= |data|
    modifies c
    ensures
      match DecInt(w, signed, data, old(c.costLen))
      case Fail => !ok && c.costLen == old(c.costLen)
      case Ok(v, p) => ok && val == v && c.costLen == p
  {
    hide Wrap;
    ok, val := false, 0;
    if |data| - c.costLen < 1 {
      return;
    }
    var flag := data[c.costLen] / 64 % 2 == 1;
    var i;
    i, val := OrDigits(w, signed, data, c.costLen);
    if i == 0 {
      return;
    }
    if flag {
      val := Wrap(w, signed, -val);
    }
    c.costLen := c.costLen + i;
    ok := true;
  }

  /** Reads into a target that holds `init`; `val` is what it holds afterwards. */
  method DecodeField(ty: Ty, init: Val, data: Bytes, c: Cursor) returns (ok: bool, val: Val)
    requires c.costLen <= |data|
    modifies c
    ensures c.costLen <= |data|
    ensures
      match Dec(ty, init, data, old(c.costLen))
      case Fail => !ok
      case Ok(v, p) => ok && val == v && c.costLen == p
    decreases ty, 2, 0
  {
    hide DecVector, DecForwardList, DecMap, DecSet, DecStruct;
    ok, val := false, init;
    match ty
    case TBool =>
      if |data| < c.costLen + 1 {
        return;
      }
      val, ok, c.costLen := VBool(data[c.costLen] == 1), true, c.costLen + 1;
    case TByte =>
      if |data| < c.costLen + 1 {
        return;
      }
      val, ok, c.costLen := VByte(data[c.costLen]), true, c.costLen + 1;
    case TInt(w, signed) =>
      var n;
      ok, n := DecodeInteger(w, signed, data, c);
      val := VInt(n);
    case TString =>
      var size;
      ok, size := DecodeSize(data, c);
      if !ok || size + c.costLen > |data| {
        ok := false;
        return;
      }
      val, c.costLen := VString(data[c.costLen..c.costLen + size]), c.costLen + size;
    case TSeq(_) => ok, val := DecodeVector(ty, init, data, c);
    case TForwardList(_) => ok, val := DecodeForwardList(ty, init, data, c);
    case TMap(_, _) => ok, val := DecodeMap(ty, init, data, c);
    case TSet(_) => ok, val := DecodeSet(ty, init, data, c);
    case TStruct(_) => ok, val := DecodeStruct(ty, init, data, c);
  }

  method DecodeVector(ty: Ty, init: Val, data: Bytes, c: Cursor) returns (ok: bool, val: Val)
    requires ty.TSeq? && c.costLen <= |data|
    modifies c
    ensures c.costLen <= |data|
    ensures
      match DecVector(ty, init, data, old(c.costLen))
      case Fail => !ok
      case Ok(v, p) => ok && val == v && c.costLen == p
    decreases ty, 1, 0
  {
    hide Dec;
    var size, v;
    val := init;
    ok, size := DecodeSize(data, c);
    if !ok {
      return;
    }
    ghost var start := c.costLen;
    var vs := Resize(SeqOf(init), size, Default(ty.elem));
    ghost var cur := vs;
    for i := 0 to size
      invariant c.costLen <= |data| && |vs| == |cur| == size
      invariant DecElements(ty, cur, i, data, start) == Ok(vs, c.costLen)
    {
      ok, v := DecodeField(ty.elem, vs[i], data, c);
      if !ok {
        ElementFails(ty, cur, i + 1, size, data, start);
        return;
      }
      vs := vs[i := v];
    }
    ok, val := true, VSeq(vs);
  }

  method DecodeForwardList(ty: Ty, init: Val, data: Bytes, c: Cursor) returns (ok: bool, val: Val)
    requires ty.TForwardList? && c.costLen <= |data|
    modifies c
    ensures c.costLen <= |data|
    ensures
      match DecForwardList(ty, init, data, old(c.costLen))
      case Fail => !ok
      case Ok(v, p) => ok && val == v && c.costLen == p
    decreases ty, 1, 0
  {
    hide Dec;
    var size, v;
    val := init;
    ok, size := DecodeSize(data, c);
    if !ok {
      return;
    }
    ghost var start := c.costLen;
    var vs := ListOf(init);
    for i := 0 to size
      invariant c.costLen <= |data|
      invariant DecFront(ty, ListOf(init), i, data, start) == Ok(vs, c.costLen)
    {
      ok, v := DecodeField(ty.elem, Default(ty.elem), data, c);
      if !ok {
        FrontFails(ty, ListOf(init), i + 1, size, data, start);
        return;
      }
      vs := [v] + vs;
    }
    ok, val := true, VForwardList(vs);
  }

  method DecodeMap(ty: Ty, init: Val, data: Bytes, c: Cursor) returns (ok: bool, val: Val)
    requires ty.TMap? && c.costLen <= |data|
    modifies c
    ensures c.costLen <= |data|
    ensures
      match DecMap(ty, init, data, old(c.costLen))
      case Fail => !ok
      case Ok(v, p) => ok && val == v && c.costLen == p
    decreases ty, 1, 0
  {
    hide Dec;
    var size, k, v;
    val := init;
    ok, size := DecodeSize(data, c);
    if !ok {
      return;
    }
    ghost var start := c.costLen;
    var m := MapOf(init);
    for i := 0 to size
      invariant c.costLen <= |data|
      invariant DecEntries(ty, MapOf(init), i, data, start) == Ok(m, c.costLen)
    {
      ok, k := DecodeField(ty.key, Default(ty.key), data, c);
      if ok {
        ok, v := DecodeField(ty.value, Default(ty.value), data, c);
      }
      if !ok {
        EntryFails(ty, MapOf(init), i + 1, size, data, start);
        return;
      }
      m := Emplace(m, k, v);
    }
    ok, val := true, VMap(m);
  }

  method DecodeSet(ty: Ty, init: Val, data: Bytes, c: Cursor) returns (ok: bool, val: Val)
    requires ty.TSet? && c.costLen <= |data|
    modifies c
    ensures c.costLen <= |data|
    ensures
      match DecSet(ty, init, data, old(c.costLen))
      case Fail => !ok
      case Ok(v, p) => ok && val == v && c.costLen == p
    decreases ty, 1, 0
  {
    hide Dec;
    var size, v;
    val := init;
    ok, size := DecodeSize(data, c);
    if !ok {
      return;
    }
    ghost var start := c.costLen;
    var xs := SetOf(init);
    for i := 0 to size
      invariant c.costLen <= |data|
      invariant DecMembers(ty, SetOf(init), i, data, start) == Ok(xs, c.costLen)
    {
      ok, v := DecodeField(ty.elem, Default(ty.elem), data, c);
      if !ok {
        MemberFails(ty, SetOf(init), i + 1, size, data, start);
        return;
      }
      xs := xs + {v};
    }
    ok, val := true, VSet(xs);
  }

  method DecodeStruct(ty: Ty, init: Val, data: Bytes, c: Cursor) returns (ok: bool, val: Val)
    requires ty.TStruct? && c.costLen <= |data|
    modifies c
    ensures c.costLen <= |data|
    ensures
      match DecStruct(ty, init, data, old(c.costLen))
      case Fail => !ok
      case Ok(v, p) => ok && val == v && c.costLen == p
    decreases ty, 1, 0
  {
    hide Dec;
    var vs := FieldsOf(init, ty.fields);
    val := VStruct(vs);
    if |data| - c.costLen == 0 {
      return true, val;
    }
    var size;
    ok, size := DecodeSize(data, c);
    if !ok || size == 0 {
      return;
    }
    var flag := c.costLen;
    if |data| - c.costLen < size {
      return false, val;
    }
    var p := DecodeFields(ty, vs, data, c, flag, size);
    match p
    case Failed => return false, val;
    case Stopped(vs', _) => return true, VStruct(vs');
    case Running(vs', _) =>
      c.costLen := flag + size;
      return true, VStruct(vs');
  }

  method DecodeFields(ty: Ty, cur: seq<Val>, data: Bytes, c: Cursor, flag: nat, size: nat) returns (p: Progress)
    requires ty.TStruct? && |cur| == |ty.fields| && flag == c.costLen <= |data|
    modifies c
    ensures c.costLen <= |data|
    ensures p == DecFields(ty, cur, |cur|, data, flag, size) && (!p.Failed? ==> p.pos == c.costLen)
    decreases ty, 0, 0
  {
    hide Dec;
    var ok, v, vs := true, VBool(false), cur;
    for i := 0 to |ty.fields|
      invariant flag <= c.costLen <= |data| && |vs| == |cur|
      invariant DecFields(ty, cur, i, data, flag, size) == Running(vs, c.costLen)
    {
      ok, v := DecodeField(ty.fields[i].ty, vs[i], data, c);
      if !ok {
        FieldSettles(ty, cur, i + 1, |cur|, data, flag, size);
        return Failed;
      }
      vs := vs[i := v];
      if c.costLen - flag >= size {
        FieldSettles(ty, cur, i + 1, |cur|, data, flag, size);
        return Stopped(vs, c.costLen);
      }
    }
    return Running(vs, c.costLen);
  }

  // A loop that fails at some element fails as a whole.

  lemma {:induction false} ElementFails(ty: Ty, cur: seq<Val>, i: nat, n: nat, data: Bytes, pos: nat)
    requires ty.TSeq? && i <= n <= |cur| && pos <= |data|
    requires DecElements(ty, cur, i, data, pos).Fail?
    ensures DecElements(ty, cur, n, data, pos).Fail?
  {
    hide Dec;
    if i < n {
      ElementFails(ty, cur, i, n - 1, data, pos);
    }
  }

  lemma {:induction false} FrontFails(ty: Ty, cur: seq<Val>, i: nat, n: nat, data: Bytes, pos: nat)
    requires ty.TForwardList? && i <= n && pos <= |data|
    requires DecFront(ty, cur, i, data, pos).Fail?
    ensures DecFront(ty, cur, n, data, pos).Fail?
  {
    hide Dec;
    if i < n {
      FrontFails(ty, cur, i, n - 1, data, pos);
    }
  }

  lemma {:induction false} EntryFails(ty: Ty, cur: map<Val, Val>, i: nat, n: nat, data: Bytes, pos: nat)
    requires ty.TMap? && i <= n && pos <= |data|
    requires DecEntries(ty, cur, i, data, pos).Fail?
    ensures DecEntries(ty, cur, n, data, pos).Fail?
  {
    hide Dec;
    if i < n {
      EntryFails(ty, cur, i, n - 1, data, pos);
    }
  }

  lemma {:induction false} MemberFails(ty: Ty, cur: set<Val>, i: nat, n: nat, data: Bytes, pos: nat)
    requires ty.TSet? && i <= n && pos <= |data|
    requires DecMembers(ty, cur, i, data, pos).Fail?
    ensures DecMembers(ty, cur, n, data, pos).Fail?
  {
    hide Dec;
    if i < n {
      MemberFails(ty, cur, i, n - 1, data, pos);
    }
  }

  /** Once the field loop has failed or stopped, later fields do not matter. */
  lemma {:induction false} FieldSettles(
      ty: Ty, cur: seq<Val>, i: nat, n: nat, data: Bytes, flag: nat, size: nat)
    requires ty.TStruct? && i <= n <= |cur| == |ty.fields| && flag <= |data|
    requires !DecFields(ty, cur, i, data, flag, size).Running?
    ensures DecFields(ty, cur, n, data, flag, size) == DecFields(ty, cur, i, data, flag, size)
  {
    hide Dec;
    if i < n {
      FieldSettles(ty, cur, i, n - 1, data, flag, size);
    }
  }
}
