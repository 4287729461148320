/** What the serializer promises: decoding an encoding, under any compatible schema and into any target. */
module SerialProofs {
  import opened Buffers
  import opened Serial

  // ---------------------------------------------------------------- sizes and integers

  lemma {:induction false} SizeRoundTrip(n: nat, data: Bytes, pos: nat)
    requires At(data, pos, EncSize(n))
    ensures DecSize(data, pos) == Ok(n, pos + |EncSize(n)|)
  {
    assert data[pos] == data[pos..pos + |EncSize(n)|][0] == EncSize(n)[0];
    if n >= 128 {
      Split(data, pos, [128 + n % 128], EncSize(n / 128));
      SizeRoundTrip(n / 128, data, pos + 1);
    }
  }

  /** One digit of the encoder, one step of the decoder. */
  lemma MagnitudeStep(m: nat)
    ensures EncMagnitude(m) == if m < 64 then [m] else [128 + m % 64] + EncMagnitude(m / 64)
    ensures m == m % 64 + 64 * (m / 64)
  {
  }

  lemma DecMagnitudeStep(data: Bytes, pos: nat)
    requires pos < |data|
    ensures data[pos] < 128 ==> DecMagnitude(data, pos) == Ok(data[pos] % 64, pos + 1)
    ensures
      var r := DecMagnitude(data, pos + 1);
      data[pos] >= 128 && r.Ok? ==> DecMagnitude(data, pos) == Ok(data[pos] % 64 + 64 * r.value, r.pos)
  {
  }

  lemma DigitBits(d: nat)
    requires d < 64
    ensures (128 + d) % 64 == d && (192 + d) % 64 == d && (64 + d) % 64 == d && d % 64 == d
    ensures (192 + d) / 64 % 2 == (64 + d) / 64 % 2 == 1 && d / 64 % 2 == (128 + d) / 64 % 2 == 0
  {
  }

  /** The magnitude, with the sign bit set in its first byte or not. */
  lemma {:induction false} MagnitudeRoundTrip(m: nat, sign: bool, data: Bytes, pos: nat)
    requires At(data, pos, [EncMagnitude(m)[0] + if sign then 64 else 0] + EncMagnitude(m)[1..])
    ensures DecMagnitude(data, pos) == Ok(m, pos + |EncMagnitude(m)|)
    ensures data[pos] / 64 % 2 == if sign then 1 else 0
  {
    var bs, first := EncMagnitude(m), EncMagnitude(m)[0] + if sign then 64 else 0;
    Split(data, pos, [first], bs[1..]);
    assert data[pos] == data[pos..pos + 1][0] == first;
    MagnitudeStep(m);
    DecMagnitudeStep(data, pos);
    DigitBits(m % 64);
    hide EncMagnitude, DecMagnitude;
    if m >= 64 {
      var rest := EncMagnitude(m / 64);
      assert bs[1..] == rest == [rest[0] + 0] + rest[1..];
      MagnitudeRoundTrip(m / 64, false, data, pos + 1);
    }
  }

  lemma ResidueOf(w: Width, x: int, q: int)
    requires -1 <= q <= 0 && 0 <= x - q * 2 * Half(w) < 2 * Half(w)
    ensures Residue(w, x) == x - q * 2 * Half(w)
  {
  }

  /** In range, conversion to the C++ type loses nothing, also through the negation of the magnitude. */
  lemma WrapExact(w: Width, signed: bool, v: int)
    requires InRange(w, signed, v)
    ensures v >= 0 ==> Wrap(w, signed, v) == v
    ensures v < 0 ==> Wrap(w, signed, -Wrap(w, signed, -v)) == v
  {
    hide Residue, Half;
    assert Half(w) > 0;
    if v >= 0 {
      ResidueOf(w, v, 0);
    } else {
      ResidueOf(w, -v, 0);
      ResidueOf(w, v, -1);
      ResidueOf(w, 2 * Half(w) + v, 0);
    }
  }

  lemma IntRoundTrip(w: Width, signed: bool, v: int, data: Bytes, pos: nat)
    requires InRange(w, signed, v)
    requires At(data, pos, EncInt(v))
    ensures DecInt(w, signed, data, pos) == Ok(v, pos + |EncInt(v)|)
  {
    WrapExact(w, signed, v);
    MagnitudeRoundTrip(Magnitude(v), v < 0, data, pos) by { SignedDigits(v); }
    SignedDigits(v);
    hide Wrap, InRange, DecMagnitude, EncMagnitude, EncInt, At;
  }

  function Magnitude(v: int): nat { if v < 0 then -v else v }

  /** The sign bit goes into the first byte of the magnitude. */
  lemma SignedDigits(v: int)
    ensures var bs := EncMagnitude(Magnitude(v));
            EncInt(v) == [bs[0] + if v < 0 then 64 else 0] + bs[1..] && |EncInt(v)| == |bs|
  {
    hide EncMagnitude;
  }

  // ---------------------------------------------------------------- encodings are not empty

  lemma SizeNonEmpty(n: nat)
    ensures |EncSize(n)| > 0
  {
  }

  lemma EncNonEmpty(o: Obj)
    ensures |Enc(o)| > 0
  {
    match o
    case OStruct(os) => SizeNonEmpty(|EncAll(os, |os|)|);
    case OString(s) => SizeNonEmpty(|s|);
    case OSeq(os) => SizeNonEmpty(|os|);
    case OForwardList(fs) => SizeNonEmpty(|fs|);
    case OMap(es) => SizeNonEmpty(|es|);
    case OSet(xs) => SizeNonEmpty(|xs|);
    case _ =>
  }

  /** Element `i` lies right after the encodings of the elements before it, and not at the end. */
  lemma {:induction false} AtElement(os: seq<Obj>, n: nat, i: nat, data: Bytes, pos: nat)
    requires i < n <= |os|
    requires At(data, pos, EncAll(os, n))
    ensures At(data, pos + |EncAll(os, i)|, Enc(os[i]))
    ensures |EncAll(os, i)| + |Enc(os[i])| == |EncAll(os, i + 1)| <= |EncAll(os, n)|
    ensures |EncAll(os, i)| < |EncAll(os, n)|
    ensures i + 1 < n ==> |EncAll(os, i + 1)| < |EncAll(os, n)|
    decreases n
  {
    Split(data, pos, EncAll(os, n - 1), Enc(os[n - 1]));
    EncNonEmpty(os[n - 1]);
    if i < n - 1 {
      AtElement(os, n - 1, i, data, pos);
    }
  }

  lemma {:induction false} AtEntry(es: seq<Entry>, n: nat, i: nat, data: Bytes, pos: nat)
    requires i < n <= |es|
    requires At(data, pos, EncEntries(es, n))
    ensures At(data, pos + |EncEntries(es, i)|, Enc(es[i].key))
    ensures At(data, pos + |EncEntries(es, i)| + |Enc(es[i].key)|, Enc(es[i].value))
    ensures |EncEntries(es, i + 1)| == |EncEntries(es, i)| + |Enc(es[i].key)| + |Enc(es[i].value)|
    decreases n
  {
    Split(data, pos, EncEntries(es, n - 1), EncEntry(es[n - 1]));
    if i < n - 1 {
      AtEntry(es, n - 1, i, data, pos);
    } else {
      Split(data, pos + |EncEntries(es, i)|, Enc(es[i].key), Enc(es[i].value));
    }
  }

  lemma {:induction false} AtBack(os: seq<Obj>, n: nat, i: nat, data: Bytes, pos: nat)
    requires i < n <= |os|
    requires At(data, pos, EncBack(os, n))
    ensures |EncBack(os, i)| + |Enc(os[i])| == |EncBack(os, i + 1)| <= |EncBack(os, n)|
    ensures At(data, pos + |EncBack(os, n)| - |EncBack(os, i + 1)|, Enc(os[i]))
    decreases n
  {
    Split(data, pos, Enc(os[n - 1]), EncBack(os, n - 1));
    if i < n - 1 {
      AtBack(os, n - 1, i, data, pos + |Enc(os[n - 1])|);
    }
  }

  // ---------------------------------------------------------------- decoding an encoding

  lemma DecodeScalar(ty: Ty, init: Val, o: Obj, data: Bytes, pos: nat)
    requires ty.TBool? || ty.TByte? || ty.TInt? || ty.TString?
    requires HasType(ty, o)
    requires At(data, pos, Enc(o))
    ensures Dec(ty, init, data, pos) == Ok(Abs(o), pos + |Enc(o)|)
  {
    hide EncSize, DecSize, EncInt, DecInt;
    match ty
    case TBool => assert data[pos] == data[pos..pos + 1][0];
    case TByte => assert data[pos] == data[pos..pos + 1][0];
    case TInt(w, signed) => IntRoundTrip(w, signed, o.n, data, pos);
    case TString =>
      Split(data, pos, EncSize(|o.s|), o.s);
      SizeRoundTrip(|o.s|, data, pos);
  }

  // One constructor each.

  lemma {:induction false} DecodeVectorObject(ty: Ty, init: Val, o: Obj, exact: bool, data: Bytes, pos: nat)
    requires ty.TSeq? && Readable(ty, o, exact) && At(data, pos, Enc(o))
    ensures pos <= |data| && Dec(ty, init, data, pos) == Ok(Merge(ty, init, o), pos + |Enc(o)|)
    decreases ty, 1, 0
  {
    assert pos <= |data|;
    hide At, EncVector, MergeVector, DecVector;
    DecodeVector(ty, init, o.os, exact, data, pos);
  }

  lemma {:induction false} DecodeForwardListObject(ty: Ty, init: Val, o: Obj, exact: bool, data: Bytes, pos: nat)
    requires ty.TForwardList? && Readable(ty, o, exact) && At(data, pos, Enc(o))
    ensures pos <= |data| && Dec(ty, init, data, pos) == Ok(Merge(ty, init, o), pos + |Enc(o)|)
    decreases ty, 1, 0
  {
    assert pos <= |data|;
    hide At, EncForwardList, MergeForwardList, DecForwardList;
    DecodeForwardList(ty, init, o.fs, exact, data, pos);
  }

  lemma {:induction false} DecodeMapObject(ty: Ty, init: Val, o: Obj, exact: bool, data: Bytes, pos: nat)
    requires ty.TMap? && Readable(ty, o, exact) && At(data, pos, Enc(o))
    ensures pos <= |data| && Dec(ty, init, data, pos) == Ok(Merge(ty, init, o), pos + |Enc(o)|)
    decreases ty, 1, 0
  {
    assert pos <= |data|;
    hide At, EncMap, MergeMap, DecMap;
    DecodeMap(ty, init, o.entries, exact, data, pos);
  }

  lemma {:induction false} DecodeSetObject(ty: Ty, init: Val, o: Obj, exact: bool, data: Bytes, pos: nat)
    requires ty.TSet? && Readable(ty, o, exact) && At(data, pos, Enc(o))
    ensures pos <= |data| && Dec(ty, init, data, pos) == Ok(Merge(ty, init, o), pos + |Enc(o)|)
    decreases ty, 1, 0
  {
    assert pos <= |data|;
    hide At, EncVector, MergeSet, DecSet;
    DecodeSet(ty, init, o.xs, data, pos);
  }

  lemma {:induction false} DecodeStructObject(ty: Ty, init: Val, o: Obj, exact: bool, data: Bytes, pos: nat)
    requires ty.TStruct? && Readable(ty, o, exact) && At(data, pos, Enc(o))
    ensures pos <= |data| && Dec(ty, init, data, pos) == Ok(Merge(ty, init, o), pos + |Enc(o)|)
    decreases ty, 1, 0
  {
    assert pos <= |data|;
    hide At, EncStruct, MergeStruct, DecStruct;
    DecodeStruct(ty, init, o.fields, exact, data, pos);
  }

  lemma ScalarForm(ty: Ty, init: Val, o: Obj, exact: bool)
    requires ty.TBool? || ty.TByte? || ty.TInt? || ty.TString?
    requires Readable(ty, o, exact)
    ensures HasType(ty, o) && Merge(ty, init, o) == Abs(o)
  {
    hide Abs;
  }

  /** The main result. For every object, every reader type that understands it, every target and every
      surrounding buffer: decoding succeeds, leaves in the target exactly what `Merge` says, and the cursor
      lands right after the writer's bytes. */
  lemma {:induction false} DecodeEncoding(ty: Ty, init: Val, o: Obj, exact: bool, data: Bytes, pos: nat)
    requires Readable(ty, o, exact)
    requires At(data, pos, Enc(o))
    ensures Dec(ty, init, data, pos) == Ok(Merge(ty, init, o), pos + |Enc(o)|)
    decreases ty, 2, 0
  {
    assert pos <= |data|;
    hide *;
    match ty
    case TSeq(_) => DecodeVectorObject(ty, init, o, exact, data, pos);
    case TForwardList(_) => DecodeForwardListObject(ty, init, o, exact, data, pos);
    case TMap(_, _) => DecodeMapObject(ty, init, o, exact, data, pos);
    case TSet(_) => DecodeSetObject(ty, init, o, exact, data, pos);
    case TStruct(_) => DecodeStructObject(ty, init, o, exact, data, pos);
    case _ =>
      ScalarForm(ty, init, o, exact);
      DecodeScalar(ty, init, o, data, pos);
  }

  lemma {:induction false} DecodeVector(ty: Ty, init: Val, os: seq<Obj>, exact: bool, data: Bytes, pos: nat)
    requires ty.TSeq? && forall j :: 0 <= j < |os| ==> Readable(ty.elem, os[j], exact)
    requires At(data, pos, EncVector(os))
    ensures DecVector(ty, init, data, pos) == Ok(MergeVector(ty, init, os), pos + |EncVector(os)|)
    decreases ty, 0, |os| + 1
  {
    hide Dec, Merge, Readable, Enc;
    var n := |os|;
    Split(data, pos, EncSize(n), EncAll(os, n));
    SizeRoundTrip(n, data, pos);
    DecodeElements(ty, Resize(SeqOf(init), n, Default(ty.elem)), os, n, exact, data, pos + |EncSize(n)|);
  }

  lemma {:induction false} DecodeForwardList(
      ty: Ty, init: Val, os: seq<Obj>, exact: bool, data: Bytes, pos: nat)
    requires ty.TForwardList? && forall j :: 0 <= j < |os| ==> Readable(ty.elem, os[j], exact)
    requires At(data, pos, EncForwardList(os))
    ensures DecForwardList(ty, init, data, pos) == Ok(MergeForwardList(ty, init, os), pos + |EncForwardList(os)|)
    decreases ty, 0, |os| + 1
  {
    hide Dec, Merge, Readable, Enc;
    var n := |os|;
    Split(data, pos, EncSize(n), EncBack(os, n));
    SizeRoundTrip(n, data, pos);
    DecodeFront(ty, ListOf(init), os, n, exact, data, pos + |EncSize(n)|);
  }

  lemma {:induction false} DecodeMap(ty: Ty, init: Val, es: seq<Entry>, exact: bool, data: Bytes, pos: nat)
    requires ty.TMap? && forall j :: 0 <= j < |es| ==>
      Readable(ty.key, es[j].key, true) && Readable(ty.value, es[j].value, exact)
    requires At(data, pos, EncMap(es))
    ensures DecMap(ty, init, data, pos) == Ok(MergeMap(ty, init, es), pos + |EncMap(es)|)
    decreases ty, 0, |es| + 1
  {
    hide Dec, Merge, Readable, Enc;
    var n := |es|;
    Split(data, pos, EncSize(n), EncEntries(es, n));
    SizeRoundTrip(n, data, pos);
    DecodeEntries(ty, MapOf(init), es, n, exact, data, pos + |EncSize(n)|);
  }

  lemma {:induction false} DecodeSet(ty: Ty, init: Val, os: seq<Obj>, data: Bytes, pos: nat)
    requires ty.TSet? && forall j :: 0 <= j < |os| ==> Readable(ty.elem, os[j], true)
    requires At(data, pos, EncVector(os))
    ensures DecSet(ty, init, data, pos) == Ok(MergeSet(ty, init, os), pos + |EncVector(os)|)
    decreases ty, 0, |os| + 1
  {
    hide Dec, Merge, Readable, Enc;
    var n := |os|;
    Split(data, pos, EncSize(n), EncAll(os, n));
    SizeRoundTrip(n, data, pos);
    DecodeMembers(ty, SetOf(init), os, n, data, pos + |EncSize(n)|);
  }

  lemma {:induction false} DecodeElements(
      ty: Ty, cur: seq<Val>, os: seq<Obj>, i: nat, exact: bool, data: Bytes, pos: nat)
    requires ty.TSeq? && i <= |os| == |cur|
    requires forall j :: 0 <= j < |os| ==> Readable(ty.elem, os[j], exact)
    requires At(data, pos, EncAll(os, |os|))
    ensures DecElements(ty, cur, i, data, pos) == Ok(MergeElements(ty, cur, os, i), pos + |EncAll(os, i)|)
    decreases ty, 0, i
  {
    hide Dec, Merge, Readable, Enc;
    if i > 0 {
      DecodeElements(ty, cur, os, i - 1, exact, data, pos);
      AtElement(os, |os|, i - 1, data, pos);
      DecodeEncoding(ty.elem, cur[i - 1], os[i - 1], exact, data, pos + |EncAll(os, i - 1)|);
    }
  }

  lemma {:induction false} DecodeFront(
      ty: Ty, cur: seq<Val>, os: seq<Obj>, i: nat, exact: bool, data: Bytes, pos: nat)
    requires ty.TForwardList? && i <= |os|
    requires forall j :: 0 <= j < |os| ==> Readable(ty.elem, os[j], exact)
    requires At(data, pos, EncBack(os, |os|))
    ensures |EncBack(os, |os| - i)| <= |EncBack(os, |os|)| && EncBack(os, 0) == []
    ensures DecFront(ty, cur, i, data, pos)
         == Ok(MergeBack(ty, os, i) + cur, pos + |EncBack(os, |os|)| - |EncBack(os, |os| - i)|)
    decreases ty, 0, i
  {
    hide Dec, Merge, Readable, Enc;
    if i == 0 {
      assert MergeBack(ty, os, 0) + cur == cur;
    } else {
      var k := |os| - i;
      DecodeFront(ty, cur, os, i - 1, exact, data, pos);
      AtBack(os, |os|, k, data, pos);
      DecodeEncoding(ty.elem, Default(ty.elem), os[k], exact, data,
                     pos + |EncBack(os, |os|)| - |EncBack(os, k + 1)|);
      var v := Merge(ty.elem, Default(ty.elem), os[k]);
      assert [v] + (MergeBack(ty, os, i - 1) + cur) == ([v] + MergeBack(ty, os, i - 1)) + cur;
    }
  }

  lemma {:induction false} DecodeEntries(
      ty: Ty, cur: map<Val, Val>, es: seq<Entry>, i: nat, exact: bool, data: Bytes, pos: nat)
    requires ty.TMap? && i <= |es|
    requires forall j :: 0 <= j < |es| ==>
      Readable(ty.key, es[j].key, true) && Readable(ty.value, es[j].value, exact)
    requires At(data, pos, EncEntries(es, |es|))
    ensures DecEntries(ty, cur, i, data, pos) == Ok(MergeEntries(ty, cur, es, i), pos + |EncEntries(es, i)|)
    decreases ty, 0, i
  {
    hide Dec, Merge, Readable, Enc, Emplace, At;
    assert pos <= |data| by { Bounds(data, pos, EncEntries(es, |es|)); }
    if i > 0 {
      var e := es[i - 1];
      DecodeEntries(ty, cur, es, i - 1, exact, data, pos);
      AtEntry(es, |es|, i - 1, data, pos);
      var p := pos + |EncEntries(es, i - 1)|;
      DecodeEncoding(ty.key, Default(ty.key), e.key, true, data, p);
      DecodeEncoding(ty.value, Default(ty.value), e.value, exact, data, p + |Enc(e.key)|);
    }
  }

  lemma {:induction false} DecodeMembers(ty: Ty, cur: set<Val>, os: seq<Obj>, i: nat, data: Bytes, pos: nat)
    requires ty.TSet? && i <= |os|
    requires forall j :: 0 <= j < |os| ==> Readable(ty.elem, os[j], true)
    requires At(data, pos, EncAll(os, |os|))
    ensures DecMembers(ty, cur, i, data, pos) == Ok(cur + MergeMembers(ty, os, i), pos + |EncAll(os, i)|)
    decreases ty, 0, i
  {
    hide Dec, Merge, Readable, Enc;
    if i == 0 {
      assert cur + MergeMembers(ty, os, 0) == cur;
    } else {
      DecodeMembers(ty, cur, os, i - 1, data, pos);
      AtElement(os, |os|, i - 1, data, pos);
      DecodeEncoding(ty.elem, Default(ty.elem), os[i - 1], true, data, pos + |EncAll(os, i - 1)|);
      var v := Merge(ty.elem, Default(ty.elem), os[i - 1]);
      assert (cur + MergeMembers(ty, os, i - 1)) + {v} == cur + (MergeMembers(ty, os, i - 1) + {v});
    }
  }

  lemma NoFields(ty: Ty, cur: seq<Val>, os: seq<Obj>)
    requires ty.TStruct? && |cur| == |ty.fields|
    ensures MergeFields(ty, cur, os, 0) == cur && EncAll(os, 0) == []
  {
  }

  lemma {:induction false} DecodeStruct(ty: Ty, init: Val, os: seq<Obj>, exact: bool, data: Bytes, pos: nat)
    requires ty.TStruct?
    requires forall j :: 0 <= j < |ty.fields| && j < |os| ==> Readable(ty.fields[j].ty, os[j], exact)
    requires At(data, pos, EncStruct(os))
    ensures DecStruct(ty, init, data, pos) == Ok(MergeStruct(ty, init, os), pos + |EncStruct(os)|)
    decreases ty, 0, |ty.fields| + 1
  {
    hide Dec, Merge, Readable, Enc, EncAll, DecFields, MergeFields, EncSize, DecSize;
    var body := EncAll(os, |os|);
    NoFields(ty, FieldsOf(init, ty.fields), os);
    SizeNonEmpty(|body|);
    Split(data, pos, EncSize(|body|), body);
    SizeRoundTrip(|body|, data, pos);
    if |os| > 0 {
      AtElement(os, |os|, 0, data, pos + |EncSize(|body|)|);
      DecodeFields(ty, FieldsOf(init, ty.fields), os, |ty.fields|, exact, data, pos + |EncSize(|body|)|);
    }
  }

  /** While the writer has more fields the reader keeps running; at the writer's last field it stops, just
      at the end of the writer's bytes, whatever fields the reader has left. */
  /** What decoding the first `i` of a reader's fields comes to. */
  function FieldsRead(ty: Ty, cur: seq<Val>, os: seq<Obj>, i: nat, flag: nat): Progress
    requires ty.TStruct? && i <= |ty.fields| == |cur|
  {
    if i < |os| then Running(MergeFields(ty, cur, os, i), flag + |EncAll(os, i)|)
    else Stopped(MergeFields(ty, cur, os, |os|), flag + |EncAll(os, |os|)|)
  }

  lemma {:induction false} DecodeFields(
      ty: Ty, cur: seq<Val>, os: seq<Obj>, i: nat, exact: bool, data: Bytes, flag: nat)
    requires ty.TStruct? && i <= |ty.fields| == |cur| && |os| > 0
    requires forall j :: 0 <= j < |ty.fields| && j < |os| ==> Readable(ty.fields[j].ty, os[j], exact)
    requires At(data, flag, EncAll(os, |os|))
    ensures flag <= |data|
    ensures DecFields(ty, cur, i, data, flag, |EncAll(os, |os|)|) == FieldsRead(ty, cur, os, i, flag)
    decreases ty, 0, i
  {
    Bounds(data, flag, EncAll(os, |os|));
    assert EncAll(os, 0) == [];
    hide Dec, DecFields, MergeFields, Merge, Readable, Enc, EncAll, At;
    if i == 0 {
      NoFieldsYet(ty, cur, os, data, flag, |EncAll(os, |os|)|);
    } else {
      DecodeFields(ty, cur, os, i - 1, exact, data, flag);
      if i <= |os| {
        NextField(ty, cur, os, i, exact, data, flag);
      } else {
        FieldSkipped(ty, cur, i, data, flag, |EncAll(os, |os|)|);
      }
    }
  }

  lemma {:induction false} NextField(
      ty: Ty, cur: seq<Val>, os: seq<Obj>, i: nat, exact: bool, data: Bytes, flag: nat)
    requires ty.TStruct? && 0 < i <= |ty.fields| == |cur| && i <= |os|
    requires Readable(ty.fields[i - 1].ty, os[i - 1], exact) && At(data, flag, EncAll(os, |os|)) && flag <= |data|
    requires DecFields(ty, cur, i - 1, data, flag, |EncAll(os, |os|)|)
          == Running(MergeFields(ty, cur, os, i - 1), flag + |EncAll(os, i - 1)|)
    ensures DecFields(ty, cur, i, data, flag, |EncAll(os, |os|)|) == FieldsRead(ty, cur, os, i, flag)
    decreases ty, 0, 0
  {
    hide Dec, DecFields, MergeFields, Merge, Readable, Enc, EncAll;
    var p := flag + |EncAll(os, i - 1)|;
    AtElement(os, |os|, i - 1, data, flag);
    assert p <= |data|;
    hide At;
    DecodeEncoding(ty.fields[i - 1].ty, cur[i - 1], os[i - 1], exact, data, p);
    FieldDecoded(ty, cur, os, i, data, flag, |EncAll(os, |os|)|, p);
  }

  lemma NoFieldsYet(ty: Ty, cur: seq<Val>, os: seq<Obj>, data: Bytes, flag: nat, size: nat)
    requires ty.TStruct? && |ty.fields| == |cur| && flag <= |data|
    ensures DecFields(ty, cur, 0, data, flag, size) == Running(MergeFields(ty, cur, os, 0), flag)
  {
  }

  lemma FieldSkipped(ty: Ty, cur: seq<Val>, i: nat, data: Bytes, flag: nat, size: nat)
    requires ty.TStruct? && 0 < i <= |ty.fields| == |cur| && flag <= |data|
    requires DecFields(ty, cur, i - 1, data, flag, size).Stopped?
    ensures DecFields(ty, cur, i, data, flag, size) == DecFields(ty, cur, i - 1, data, flag, size)
  {
    hide Dec;
  }

  /** One field more: the macro stops once the announced size is used up. */
  lemma FieldDecoded(
      ty: Ty, cur: seq<Val>, os: seq<Obj>, i: nat, data: Bytes, flag: nat, size: nat, p: nat)
    requires ty.TStruct? && 0 < i <= |ty.fields| == |cur| && i <= |os| && flag <= p <= |data|
    requires DecFields(ty, cur, i - 1, data, flag, size) == Running(MergeFields(ty, cur, os, i - 1), p)
    requires Dec(ty.fields[i - 1].ty, cur[i - 1], data, p)
          == Ok(Merge(ty.fields[i - 1].ty, cur[i - 1], os[i - 1]), p + |Enc(os[i - 1])|)
    ensures DecFields(ty, cur, i, data, flag, size) ==
      var q := p + |Enc(os[i - 1])|;
      if q - flag >= size then Stopped(MergeFields(ty, cur, os, i), q) else Running(MergeFields(ty, cur, os, i), q)
  {
    hide Dec, Merge, Enc;
  }

  // ---------------------------------------------------------------- schema evolution

  lemma {:induction false} CompatibleReads(writer: Ty, reader: Ty, o: Obj)
    requires Compatible(writer, reader) && Readable(writer, o, true)
    ensures Readable(reader, o, false)
    decreases writer
  {
    match writer
    case TSeq(e) =>
      forall i | 0 <= i < |o.os| ensures Readable(reader.elem, o.os[i], false) {
        CompatibleReads(e, reader.elem, o.os[i]);
      }
    case TForwardList(e) =>
      forall i | 0 <= i < |o.fs| ensures Readable(reader.elem, o.fs[i], false) {
        CompatibleReads(e, reader.elem, o.fs[i]);
      }
    case TMap(k, v) =>
      forall i | 0 <= i < |o.entries| ensures Readable(reader.value, o.entries[i].value, false) {
        CompatibleReads(v, reader.value, o.entries[i].value);
      }
    case TStruct(fs) =>
      forall i | 0 <= i < |reader.fields| && i < |o.fields|
        ensures Readable(reader.fields[i].ty, o.fields[i], false)
      {
        CompatibleReads(fs[i].ty, reader.fields[i].ty, o.fields[i]);
      }
    case _ =>
  }

  /** An object written under one schema and read under a compatible one, older or newer. */
  lemma SchemaEvolution(writer: Ty, reader: Ty, o: Obj, data: Bytes, pos: nat)
    requires Compatible(writer, reader) && HasType(writer, o)
    requires At(data, pos, Enc(o))
    ensures Dec(reader, Default(reader), data, pos) == Ok(Merge(reader, Default(reader), o), pos + |Enc(o)|)
  {
    CompatibleReads(writer, reader, o);
    DecodeEncoding(reader, Default(reader), o, false, data, pos);
  }

  /** What that means for a struct, field by field. */
  lemma SchemaEvolutionOfStruct(writer: Ty, reader: Ty, o: Obj, data: Bytes, pos: nat)
    requires writer.TStruct? && Compatible(writer, reader) && HasType(writer, o)
    requires At(data, pos, Enc(o))
    ensures Dec(reader, Default(reader), data, pos).Ok?
    ensures
      var r := Dec(reader, Default(reader), data, pos);
      var vs := r.value;
      && r.pos == pos + |Enc(o)|
      && vs.VStruct? && |vs.fields| == |reader.fields|
      && (forall i :: |writer.fields| <= i < |reader.fields| ==> vs.fields[i] == reader.fields[i].init)
      && (forall i :: 0 <= i < |writer.fields| && i < |reader.fields| ==>
            vs.fields[i] == Merge(reader.fields[i].ty, reader.fields[i].init, o.fields[i]))
  {
    SchemaEvolution(writer, reader, o, data, pos);
  }
}
