/** Which decoding targets give the written value back: exactly those that hold no stale container contents. */
module SerialRoundTrip {
  import opened Buffers
  import opened Serial
  import opened SerialProofs

  /** Nothing of `v` survives decoding into it: forward lists, maps and sets in it are empty, also those in
      vector elements it already has, and in the default-constructed values the decoders start from. */
  predicate Fresh(ty: Ty, v: Val)
    decreases ty
  {
    match ty
    case TSeq(e) =>
      Fresh(e, Default(e)) && forall i :: 0 <= i < |SeqOf(v)| ==> Fresh(e, SeqOf(v)[i])
    case TForwardList(e) => ListOf(v) == [] && Fresh(e, Default(e))
    case TMap(k, w) => MapOf(v) == map[] && Fresh(k, Default(k)) && Fresh(w, Default(w))
    case TSet(e) => SetOf(v) == {} && Fresh(e, Default(e))
    case TStruct(fs) => forall i :: 0 <= i < |fs| ==> Fresh(fs[i].ty, FieldsOf(v, fs)[i])
    case _ => true
  }

  lemma {:induction false} FreshGivesValue(ty: Ty, init: Val, o: Obj)
    requires Fresh(ty, init) && HasType(ty, o)
    ensures Merge(ty, init, o) == Abs(o)
    decreases ty, 1, 0
  {
    hide MergeVector, MergeForwardList, MergeStruct, AbsAll;
    match ty
    case TSeq(_) => FreshVector(ty, init, o.os);
    case TForwardList(_) => FreshForwardList(ty, init, o.fs);
    case TMap(_, _) => FreshEntries(ty, o.entries, |o.entries|);
    case TSet(_) => FreshMembers(ty, o.xs, |o.xs|);
    case TStruct(_) => FreshStruct(ty, init, o.fields);
    case _ =>
  }

  lemma {:induction false} FreshVector(ty: Ty, init: Val, os: seq<Obj>)
    requires ty.TSeq? && Fresh(ty, init) && HasType(ty, OSeq(os))
    ensures MergeVector(ty, init, os) == VSeq(AbsAll(os, |os|))
    decreases ty, 0, 0
  {
    hide Merge, Abs;
    var cur := Resize(SeqOf(init), |os|, Default(ty.elem));
    forall i | 0 <= i < |os| ensures Merge(ty.elem, cur[i], os[i]) == Abs(os[i]) {
      FreshGivesValue(ty.elem, cur[i], os[i]);
    }
    assert MergeElements(ty, cur, os, |os|) == AbsAll(os, |os|);
  }

  lemma {:induction false} FreshForwardList(ty: Ty, init: Val, os: seq<Obj>)
    requires ty.TForwardList? && Fresh(ty, init) && HasType(ty, OForwardList(os))
    ensures MergeForwardList(ty, init, os) == VForwardList(AbsAll(os, |os|))
    decreases ty, 0, 0
  {
    hide Merge, Abs;
    forall i | 0 <= i < |os| ensures Merge(ty.elem, Default(ty.elem), os[i]) == Abs(os[i]) {
      FreshGivesValue(ty.elem, Default(ty.elem), os[i]);
    }
    assert MergeBack(ty, os, |os|) + [] == AbsAll(os, |os|);
  }

  lemma {:induction false} FreshStruct(ty: Ty, init: Val, os: seq<Obj>)
    requires ty.TStruct? && Fresh(ty, init) && HasType(ty, OStruct(os))
    ensures MergeStruct(ty, init, os) == VStruct(AbsAll(os, |os|))
    decreases ty, 0, 0
  {
    hide Merge, Abs;
    var cur := FieldsOf(init, ty.fields);
    forall i | 0 <= i < |os| ensures Merge(ty.fields[i].ty, cur[i], os[i]) == Abs(os[i]) {
      FreshGivesValue(ty.fields[i].ty, cur[i], os[i]);
    }
    assert MergeFields(ty, cur, os, |os|) == AbsAll(os, |os|);
  }

  lemma {:induction false} FreshEntries(ty: Ty, es: seq<Entry>, n: nat)
    requires ty.TMap? && n <= |es| && Fresh(ty, VMap(map[])) && HasType(ty, OMap(es))
    ensures MergeEntries(ty, map[], es, n) == AbsEntries(es, n)
    decreases ty, 0, n
  {
    if n > 0 {
      FreshEntries(ty, es, n - 1);
      FreshGivesValue(ty.key, Default(ty.key), es[n - 1].key);
      FreshGivesValue(ty.value, Default(ty.value), es[n - 1].value);
    }
  }

  lemma {:induction false} FreshMembers(ty: Ty, os: seq<Obj>, n: nat)
    requires ty.TSet? && n <= |os| && Fresh(ty, VSet({})) && HasType(ty, OSet(os))
    ensures MergeMembers(ty, os, n) == set v <- AbsAll(os, n)
    decreases ty, 0, n
  {
    if n > 0 {
      FreshMembers(ty, os, n - 1);
      FreshGivesValue(ty.elem, Default(ty.elem), os[n - 1]);
    }
  }

  /** Some object of every type. */
  function Sample(ty: Ty): (o: Obj)
    ensures HasType(ty, o)
  {
    match ty
    case TBool => OBool(false)
    case TByte => OByte(0)
    case TInt(_, _) => OInt(0)
    case TString => OString([])
    case TSeq(_) => OSeq([])
    case TForwardList(_) => OForwardList([])
    case TMap(_, _) => OMap([])
    case TSet(_) => OSet([])
    case TStruct(fs) => OStruct(seq(|fs|, i requires 0 <= i < |fs| => Sample(fs[i].ty)))
  }

  /** An object whose value a stale target does not take on. */
  lemma {:induction false} Witness(ty: Ty, init: Val) returns (o: Obj)
    requires !Fresh(ty, init)
    ensures HasType(ty, o) && Merge(ty, init, o) != Abs(o)
    decreases ty
  {
    hide Merge, Abs;
    match ty
    case TSeq(e) =>
      var i, prior := 0, SeqOf(init);
      if Fresh(e, Default(e)) {
        i :| 0 <= i < |prior| && !Fresh(e, prior[i]);
      } else {
        i := |prior|;
      }
      var x := Witness(e, if i < |prior| then prior[i] else Default(e));
      o := OSeq(seq(i, j => Sample(e)) + [x]);
      WitnessInSeq(ty, init, o.os, i);
    case TForwardList(e) =>
      o := OForwardList([]);
      StaleContents(ty, init);
      if ListOf(init) == [] {
        var x := Witness(e, Default(e));
        o := OForwardList([x]);
        WitnessInForwardList(ty, init, x);
      }
    case TMap(k, w) =>
      o := OMap([]);
      StaleContents(ty, init);
      if MapOf(init) == map[] {
        var key, value := Sample(k), Sample(w);
        if Fresh(k, Default(k)) {
          value := Witness(w, Default(w));
        } else {
          key := Witness(k, Default(k));
        }
        o := OMap([Entry(key, value)]);
        WitnessInMap(ty, init, key, value);
      }
    case TSet(e) =>
      o := OSet([]);
      StaleContents(ty, init);
      if SetOf(init) == {} {
        var x := Witness(e, Default(e));
        o := OSet([x]);
        WitnessInSet(ty, init, x);
      }
    case TStruct(fs) =>
      var i :| 0 <= i < |fs| && !Fresh(fs[i].ty, FieldsOf(init, fs)[i]);
      var x := Witness(fs[i].ty, FieldsOf(init, fs)[i]);
      o := OStruct(Sample(ty).fields[i := x]);
      WitnessInStruct(ty, init, o.fields, i);
  }

  /** An empty container leaves the old contents of a list, a map or a set standing. */
  lemma StaleContents(ty: Ty, init: Val)
    ensures ty.TForwardList? && ListOf(init) != [] ==>
      Merge(ty, init, OForwardList([])) != Abs(OForwardList([]))
    ensures ty.TMap? && MapOf(init) != map[] ==> Merge(ty, init, OMap([])) != Abs(OMap([]))
    ensures ty.TSet? && SetOf(init) != {} ==> Merge(ty, init, OSet([])) != Abs(OSet([]))
  {
    assert AbsAll([], 0) == [] && AbsEntries([], 0) == map[];
    assert [] + ListOf(init) == ListOf(init);
    if ty.TMap? {
      assert MergeEntries(ty, MapOf(init), [], 0) == MapOf(init);
      assert Abs(OMap([])) == VMap(AbsEntries([], 0));
    }
  }

  lemma WitnessInSeq(ty: Ty, init: Val, os: seq<Obj>, i: nat)
    requires ty.TSeq? && i < |os|
    requires Merge(ty.elem, if i < |SeqOf(init)| then SeqOf(init)[i] else Default(ty.elem), os[i]) != Abs(os[i])
    ensures Merge(ty, init, OSeq(os)) != Abs(OSeq(os))
  {
    var cur := Resize(SeqOf(init), |os|, Default(ty.elem));
    assert MergeElements(ty, cur, os, |os|)[i] == Merge(ty.elem, cur[i], os[i]);
    assert AbsAll(os, |os|)[i] == Abs(os[i]);
  }

  lemma WitnessInForwardList(ty: Ty, init: Val, x: Obj)
    requires ty.TForwardList? && ListOf(init) == []
    requires Merge(ty.elem, Default(ty.elem), x) != Abs(x)
    ensures Merge(ty, init, OForwardList([x])) != Abs(OForwardList([x]))
  {
    assert (MergeBack(ty, [x], 1) + ListOf(init))[0] == Merge(ty.elem, Default(ty.elem), x);
    assert AbsAll([x], 1)[0] == Abs(x);
  }

  lemma WitnessInStruct(ty: Ty, init: Val, os: seq<Obj>, i: nat)
    requires ty.TStruct? && i < |os| == |ty.fields|
    requires Merge(ty.fields[i].ty, FieldsOf(init, ty.fields)[i], os[i]) != Abs(os[i])
    ensures Merge(ty, init, OStruct(os)) != Abs(OStruct(os))
  {
    var cur := FieldsOf(init, ty.fields);
    var merged, plain := MergeFields(ty, cur, os, |os|), AbsAll(os, |os|);
    assert Merge(ty, init, OStruct(os)) == VStruct(merged) && Abs(OStruct(os)) == VStruct(plain);
    hide Merge, Abs, MergeFields, AbsAll;
    assert merged[i] == Merge(ty.fields[i].ty, cur[i], os[i]) && plain[i] == Abs(os[i]);
  }

  lemma WitnessInMap(ty: Ty, init: Val, key: Obj, value: Obj)
    requires ty.TMap? && MapOf(init) == map[]
    requires Merge(ty.key, Default(ty.key), key) != Abs(key)
          || Merge(ty.value, Default(ty.value), value) != Abs(value)
    ensures Merge(ty, init, OMap([Entry(key, value)])) != Abs(OMap([Entry(key, value)]))
  {
    var es := [Entry(key, value)];
    var k, v := Merge(ty.key, Default(ty.key), key), Merge(ty.value, Default(ty.value), value);
    var m, m' := MergeEntries(ty, map[], es, 1), AbsEntries(es, 1);
    assert m == map[k := v] by { assert MergeEntries(ty, map[], es, 0) == map[]; }
    assert m' == map[Abs(key) := Abs(value)] by {
      assert AbsEntries(es, 0) == map[] && AbsEntry(es[0]) == (Abs(key), Abs(value));
    }
    assert k in m && Abs(key) in m' && m[k] == v && m'[Abs(key)] == Abs(value);
  }

  lemma WitnessInSet(ty: Ty, init: Val, x: Obj)
    requires ty.TSet? && SetOf(init) == {}
    requires Merge(ty.elem, Default(ty.elem), x) != Abs(x)
    ensures Merge(ty, init, OSet([x])) != Abs(OSet([x]))
  {
    var v := Merge(ty.elem, Default(ty.elem), x);
    assert MergeMembers(ty, [x], 1) == {v} by { assert MergeMembers(ty, [x], 0) == {}; }
    assert v in MergeMembers(ty, [x], 1) && Abs(x) in AbsAll([x], 1) && |AbsAll([x], 1)| == 1;
  }

  /** Decoding into `init` returns every written value of the type, wherever it stands in a buffer, if and
      only if `init` is fresh. */
  lemma RoundTripIffFresh(ty: Ty, init: Val)
    ensures Fresh(ty, init) <==>
      forall o, data, pos: nat :: HasType(ty, o) && At(data, pos, Enc(o)) ==>
        Dec(ty, init, data, pos) == Ok(Abs(o), pos + |Enc(o)|)
  {
    hide Fresh, Readable, Merge, Abs, Dec, Enc;
    if Fresh(ty, init) {
      forall o, data, pos: nat | HasType(ty, o) && At(data, pos, Enc(o))
        ensures Dec(ty, init, data, pos) == Ok(Abs(o), pos + |Enc(o)|)
      {
        DecodeEncoding(ty, init, o, true, data, pos);
        FreshGivesValue(ty, init, o);
      }
    } else {
      var o := Witness(ty, init);
      assert At(Enc(o), 0, Enc(o));
      DecodeEncoding(ty, init, o, true, Enc(o), 0);
    }
  }

  lemma {:induction false} AbsentKey(es: seq<Entry>, n: nat, k: Val)
    requires n <= |es| && forall i :: 0 <= i < n ==> Abs(es[i].key) != k
    ensures k !in AbsEntries(es, n)
  {
    hide Abs;
    if n > 0 {
      AbsentKey(es, n - 1, k);
      assert AbsEntry(es[n - 1]).0 == Abs(es[n - 1].key);
    }
  }

  /** The value of a map object whose keys differ holds each of its entries and nothing else. */
  lemma {:induction false} MapValue(es: seq<Entry>, n: nat)
    requires n <= |es|
    requires forall i, j :: 0 <= i < j < |es| ==> Abs(es[i].key) != Abs(es[j].key)
    ensures |AbsEntries(es, n)| == n
    ensures forall i :: 0 <= i < n ==>
      Abs(es[i].key) in AbsEntries(es, n) && AbsEntries(es, n)[Abs(es[i].key)] == Abs(es[i].value)
  {
    hide Abs;
    if n > 0 {
      MapValue(es, n - 1);
      var m, k := AbsEntries(es, n - 1), Abs(es[n - 1].key);
      AbsentKey(es, n - 1, k);
      assert AbsEntry(es[n - 1]) == (k, Abs(es[n - 1].value));
      assert AbsEntries(es, n) == m[k := Abs(es[n - 1].value)];
    }
  }

  /** Across schemas, a common field of the same type that starts fresh takes exactly the value written. */
  lemma CommonFieldValue(writer: Ty, reader: Ty, o: Obj, data: Bytes, pos: nat, i: nat)
    requires writer.TStruct? && reader.TStruct? && Compatible(writer, reader) && HasType(writer, o)
    requires At(data, pos, Enc(o))
    requires i < |writer.fields| && i < |reader.fields| && reader.fields[i].ty == writer.fields[i].ty
    requires Fresh(reader.fields[i].ty, reader.fields[i].init)
    ensures var r := Dec(reader, Default(reader), data, pos);
            r.Ok? && r.value.VStruct? && i < |r.value.fields| && r.value.fields[i] == Abs(o.fields[i])
  {
    SchemaEvolutionOfStruct(writer, reader, o, data, pos);
    FreshGivesValue(reader.fields[i].ty, reader.fields[i].init, o.fields[i]);
    hide Dec, Enc, Merge, Abs, Default, Fresh, Compatible;
  }

  // ---------------------------------------------------------------- maps that are not empty

  /** The key and the value that entry `i` is read as. */
  function EntryKey(ty: Ty, e: Entry): Val
    requires ty.TMap?
  {
    Merge(ty.key, Default(ty.key), e.key)
  }

  function EntryValue(ty: Ty, e: Entry): Val
    requires ty.TMap?
  {
    Merge(ty.value, Default(ty.value), e.value)
  }

  predicate Written(ty: Ty, es: seq<Entry>, n: nat, k: Val)
    requires ty.TMap? && n <= |es|
  {
    exists i :: 0 <= i < n && k == EntryKey(ty, es[i])
  }

  lemma {:induction false} MergedKeys(ty: Ty, cur: map<Val, Val>, es: seq<Entry>, n: nat, k: Val)
    requires ty.TMap? && n <= |es|
    ensures k in MergeEntries(ty, cur, es, n) <==> k in cur || Written(ty, es, n, k)
    ensures k in cur ==> MergeEntries(ty, cur, es, n)[k] == cur[k]
    decreases n
  {
    hide Merge;
    if n > 0 { MergedKeys(ty, cur, es, n - 1, k); }
  }

  lemma {:induction false} NewValue(ty: Ty, cur: map<Val, Val>, es: seq<Entry>, n: nat, i: nat)
    requires ty.TMap? && i < n <= |es| && EntryKey(ty, es[i]) !in cur && NewKey(ty, es, i)
    ensures EntryKey(ty, es[i]) in MergeEntries(ty, cur, es, n)
    ensures MergeEntries(ty, cur, es, n)[EntryKey(ty, es[i])] == EntryValue(ty, es[i])
    decreases n
  {
    hide Merge;
    if i < n - 1 {
      NewValue(ty, cur, es, n - 1, i);
    } else {
      MergedKeys(ty, cur, es, i, EntryKey(ty, es[i]));
    }
  }

  /** Reading a map into a target: a key that is there keeps its value, a new one takes the value of the first entry
      with it, and there are no others. */
  lemma MergedMap(ty: Ty, cur: map<Val, Val>, es: seq<Entry>)
    requires ty.TMap?
    ensures var m := MergeEntries(ty, cur, es, |es|);
            && (forall k :: k in m <==> k in cur || Written(ty, es, |es|, k))
            && (forall k :: k in cur ==> m[k] == cur[k])
            && (forall i :: 0 <= i < |es| && EntryKey(ty, es[i]) !in cur && NewKey(ty, es, i) ==>
                  m[EntryKey(ty, es[i])] == EntryValue(ty, es[i]))
  {
    hide Merge, MergeEntries, Written, NewKey;
    var m := MergeEntries(ty, cur, es, |es|);
    forall k ensures k in m <==> k in cur || Written(ty, es, |es|, k) { MergedKeys(ty, cur, es, |es|, k); }
    forall k | k in cur ensures m[k] == cur[k] { MergedKeys(ty, cur, es, |es|, k); }
    forall i | 0 <= i < |es| && EntryKey(ty, es[i]) !in cur && NewKey(ty, es, i)
      ensures EntryKey(ty, es[i]) in m && m[EntryKey(ty, es[i])] == EntryValue(ty, es[i])
    {
      NewValue(ty, cur, es, |es|, i);
    }
  }

  /** No entry in front has the key of entry `i`. */
  predicate NewKey(ty: Ty, es: seq<Entry>, i: nat)
    requires ty.TMap? && i < |es|
  {
    forall j :: 0 <= j < i ==> EntryKey(ty, es[j]) != EntryKey(ty, es[i])
  }
}
