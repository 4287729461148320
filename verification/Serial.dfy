/** The binary serializer of Include/shine_serial/shine_serial.hpp: what is written and what is read back.

    An `Obj` is a C++ object as the encoder walks it: a container is the sequence its iterator visits.
    A `Val` is the value `operator==` sees: maps and sets have no order. */
module Serial {
  type byte = b: int | 0 <= b < 256
  type Bytes = seq<byte>

  datatype Width = W16 | W32 | W64

  datatype Ty =
    | TBool
    | TByte
    | TInt(width: Width, signed: bool)
    | TString
    | TSeq(elem: Ty)                     // vector, deque, list
    | TForwardList(elem: Ty)
    | TMap(key: Ty, value: Ty)           // map, unordered_map
    | TSet(elem: Ty)                     // set, unordered_set
    | TStruct(fields: seq<Field>)        // a class declared with SHINE_SERIAL

  /** A struct field with the value its default member initializer gives it. */
  datatype Field = Field(ty: Ty, init: Val)

  datatype Val =
    | VBool(b: bool)
    | VByte(c: byte)
    | VInt(n: int)
    | VString(s: Bytes)
    | VSeq(vs: seq<Val>)
    | VForwardList(fs: seq<Val>)
    | VMap(m: map<Val, Val>)
    | VSet(xs: set<Val>)
    | VStruct(fields: seq<Val>)

  datatype Obj =
    | OBool(b: bool)
    | OByte(c: byte)
    | OInt(n: int)
    | OString(s: Bytes)
    | OSeq(os: seq<Obj>)
    | OForwardList(fs: seq<Obj>)
    | OMap(entries: seq<Entry>)
    | OSet(xs: seq<Obj>)
    | OStruct(fields: seq<Obj>)

  datatype Entry = Entry(key: Obj, value: Obj)

  datatype Result<+T> = Fail | Ok(value: T, pos: nat)

  // ---------------------------------------------------------------- sizes and integers

  /** Base-128 digits, least significant first, bit 7 set on all but the last. */
  function EncSize(n: nat): Bytes {
    if n < 128 then [n] else [128 + n % 128] + EncSize(n / 128)
  }

  function DecSize(data: Bytes, pos: nat): (r: Result<nat>)
    ensures r.Ok? ==> pos < r.pos <= |data|
    decreases |data| - pos
  {
    if pos >= |data| then Fail
    else if data[pos] < 128 then Ok(data[pos], pos + 1)
    else
      match DecSize(data, pos + 1)
      case Fail => Fail
      case Ok(v, p) => Ok(data[pos] % 128 + 128 * v, p)
  }

  /** Base-64 digits of a magnitude; bit 6 of every byte is clear. */
  function EncMagnitude(m: nat): (bs: Bytes)
    ensures |bs| > 0 && bs[0] % 128 < 64
  {
    if m < 64 then [m] else [128 + m % 64] + EncMagnitude(m / 64)
  }

  /** Sign and magnitude: bit 6 of the first byte is the sign. */
  function EncInt(v: int): Bytes {
    if v < 0 then var bs := EncMagnitude(-v); bs[0 := bs[0] + 64] else EncMagnitude(v)
  }

  function DecMagnitude(data: Bytes, pos: nat): (r: Result<nat>)
    ensures r.Ok? ==> pos < r.pos <= |data|
    decreases |data| - pos
  {
    if pos >= |data| then Fail
    else if data[pos] < 128 then Ok(data[pos] % 64, pos + 1)
    else
      match DecMagnitude(data, pos + 1)
      case Fail => Fail
      case Ok(v, p) => Ok(data[pos] % 64 + 64 * v, p)
  }

  function Half(w: Width): int {
    match w case W16 => 0x8000 case W32 => 0x8000_0000 case W64 => 0x8000_0000_0000_0000
  }

  function Residue(w: Width, x: int): nat {
    match w
    case W16 => x % 0x1_0000
    case W32 => x % 0x1_0000_0000
    case W64 => x % 0x1_0000_0000_0000_0000
  }

  /** Conversion of any integer to the C++ type: reduction modulo 2^width, two's complement when signed. */
  function Wrap(w: Width, signed: bool, x: int): int {
    var r := Residue(w, x);
    if signed && r >= Half(w) then r - 2 * Half(w) else r
  }

  /** The values the encoder is defined for. Negating the least 32- or 64-bit value overflows in C++;
      a short is promoted to int first, so its least value is fine. */
  predicate InRange(w: Width, signed: bool, x: int) {
    if signed then -Half(w) <= x < Half(w) && (w == W16 || x != -Half(w)) else 0 <= x < 2 * Half(w)
  }

  function DecInt(w: Width, signed: bool, data: Bytes, pos: nat): (r: Result<int>)
    ensures r.Ok? ==> pos < r.pos <= |data|
  {
    match DecMagnitude(data, pos)
    case Fail => Fail
    case Ok(m, p) =>
      var v := Wrap(w, signed, m);
      Ok(if data[pos] / 64 % 2 == 1 then Wrap(w, signed, -v) else v, p)
  }

  // ---------------------------------------------------------------- encoding

  function Enc(o: Obj): Bytes
    decreases o, 1, 0
  {
    match o
    case OBool(b) => [if b then 1 else 0]
    case OByte(c) => [c]
    case OInt(n) => EncInt(n)
    case OString(s) => EncSize(|s|) + s
    case OSeq(os) => EncVector(os)
    case OForwardList(fs) => EncForwardList(fs)
    case OMap(es) => EncMap(es)
    case OSet(xs) => EncVector(xs)
    case OStruct(os) => EncStruct(os)
  }

  function EncVector(os: seq<Obj>): Bytes
    decreases os, 1, 0
  {
    EncSize(|os|) + EncAll(os, |os|)
  }

  function EncForwardList(fs: seq<Obj>): Bytes
    decreases fs, 1, 0
  {
    EncSize(|fs|) + EncBack(fs, |fs|)
  }

  function EncMap(es: seq<Entry>): Bytes
    decreases es, 1, 0
  {
    EncSize(|es|) + EncEntries(es, |es|)
  }

  /** The size in front counts the bytes of the fields, not the fields. */
  function EncStruct(os: seq<Obj>): Bytes
    decreases os, 1, 0
  {
    EncSize(|EncAll(os, |os|)|) + EncAll(os, |os|)
  }

  /** The first `n` objects, in order. */
  function EncAll(os: seq<Obj>, n: nat): Bytes
    requires n <= |os|
    decreases os, 0, n
  {
    if n == 0 then [] else EncAll(os, n - 1) + Enc(os[n - 1])
  }

  /** The first `n` objects, last one first. */
  function EncBack(os: seq<Obj>, n: nat): Bytes
    requires n <= |os|
    decreases os, 0, n
  {
    if n == 0 then [] else Enc(os[n - 1]) + EncBack(os, n - 1)
  }

  function EncEntries(es: seq<Entry>, n: nat): Bytes
    requires n <= |es|
    decreases es, 0, n
  {
    if n == 0 then [] else EncEntries(es, n - 1) + EncEntry(es[n - 1])
  }

  function EncEntry(e: Entry): Bytes
    decreases e, 0, 0
  {
    Enc(e.key) + Enc(e.value)
  }

  // ---------------------------------------------------------------- values

  /** What a freshly declared object of the type holds. */
  function Default(ty: Ty): Val {
    match ty
    case TBool => VBool(false)
    case TByte => VByte(0)
    case TInt(_, _) => VInt(0)
    case TString => VString([])
    case TSeq(_) => VSeq([])
    case TForwardList(_) => VForwardList([])
    case TMap(_, _) => VMap(map[])
    case TSet(_) => VSet({})
    case TStruct(fs) => VStruct(Inits(fs))
  }

  function Inits(fs: seq<Field>): (vs: seq<Val>)
    ensures |vs| == |fs|
  {
    seq(|fs|, i requires 0 <= i < |fs| => fs[i].init)
  }

  /** `emplace`: an entry whose key is present already is not replaced. */
  function Emplace(m: map<Val, Val>, k: Val, v: Val): map<Val, Val> {
    if k in m then m else m[k := v]
  }

  /** The value of an object. */
  function Abs(o: Obj): Val
    decreases o, 1, 0
  {
    match o
    case OBool(b) => VBool(b)
    case OByte(c) => VByte(c)
    case OInt(n) => VInt(n)
    case OString(s) => VString(s)
    case OSeq(os) => VSeq(AbsAll(os, |os|))
    case OForwardList(fs) => VForwardList(AbsAll(fs, |fs|))
    case OMap(es) => VMap(AbsEntries(es, |es|))
    case OSet(xs) => VSet(set v <- AbsAll(xs, |xs|))
    case OStruct(os) => VStruct(AbsAll(os, |os|))
  }

  function AbsAll(os: seq<Obj>, n: nat): (vs: seq<Val>)
    requires n <= |os|
    ensures |vs| == n
    ensures forall i :: 0 <= i < n ==> vs[i] == Abs(os[i])
    decreases os, 0, n
  {
    if n == 0 then [] else AbsAll(os, n - 1) + [Abs(os[n - 1])]
  }

  function AbsEntries(es: seq<Entry>, n: nat): map<Val, Val>
    requires n <= |es|
    decreases es, 0, n
  {
    if n == 0 then map[]
    else
      var (k, v) := AbsEntry(es[n - 1]);
      Emplace(AbsEntries(es, n - 1), k, v)
  }

  function AbsEntry(e: Entry): (Val, Val)
    decreases e, 0, 0
  {
    (Abs(e.key), Abs(e.value))
  }

  /** The members of a target that a decoder sees before it starts. */
  function SeqOf(v: Val): seq<Val> { if v.VSeq? then v.vs else [] }
  function ListOf(v: Val): seq<Val> { if v.VForwardList? then v.fs else [] }
  function MapOf(v: Val): map<Val, Val> { if v.VMap? then v.m else map[] }
  function SetOf(v: Val): set<Val> { if v.VSet? then v.xs else {} }

  function FieldsOf(v: Val, fs: seq<Field>): (vs: seq<Val>)
    ensures |vs| == |fs|
  {
    if v.VStruct? && |v.fields| == |fs| then v.fields else Inits(fs)
  }

  /** `resize`: old elements stay, new ones are default-constructed. */
  function Resize(prior: seq<Val>, n: nat, fill: Val): (vs: seq<Val>)
    ensures |vs| == n
    ensures forall i :: 0 <= i < n ==> vs[i] == if i < |prior| then prior[i] else fill
  {
    seq(n, i requires 0 <= i < n => if i < |prior| then prior[i] else fill)
  }

  // ---------------------------------------------------------------- decoding

  /** Reads a value of type `ty` at `pos` into a target that holds `init`.
      Reads stay inside the buffer, and on success the cursor has neither moved back nor passed the end. */
  function Dec(ty: Ty, init: Val, data: Bytes, pos: nat): (r: Result<Val>)
    requires pos <= |data|
    ensures r.Ok? ==> pos <= r.pos <= |data|
    decreases ty, 2, 0
  {
    match ty
    case TBool => if pos >= |data| then Fail else Ok(VBool(data[pos] == 1), pos + 1)
    case TByte => if pos >= |data| then Fail else Ok(VByte(data[pos]), pos + 1)
    case TInt(w, signed) => (
      match DecInt(w, signed, data, pos)
      case Fail => Fail
      case Ok(n, p) => Ok(VInt(n), p))
    case TString => (
      match DecSize(data, pos)
      case Fail => Fail
      case Ok(n, p) => if p + n > |data| then Fail else Ok(VString(data[p..p + n]), p + n))
    case TSeq(_) => DecVector(ty, init, data, pos)
    case TForwardList(_) => DecForwardList(ty, init, data, pos)
    case TMap(_, _) => DecMap(ty, init, data, pos)
    case TSet(_) => DecSet(ty, init, data, pos)
    case TStruct(_) => DecStruct(ty, init, data, pos)
  }

  function DecVector(ty: Ty, init: Val, data: Bytes, pos: nat): (r: Result<Val>)
    requires ty.TSeq? && pos <= |data|
    ensures r.Ok? ==> pos <= r.pos <= |data|
    decreases ty, 1, 0
  {
    match DecSize(data, pos)
    case Fail => Fail
    case Ok(n, p) =>
      match DecElements(ty, Resize(SeqOf(init), n, Default(ty.elem)), n, data, p)
      case Fail => Fail
      case Ok(vs, q) => Ok(VSeq(vs), q)
  }

  function DecForwardList(ty: Ty, init: Val, data: Bytes, pos: nat): (r: Result<Val>)
    requires ty.TForwardList? && pos <= |data|
    ensures r.Ok? ==> pos <= r.pos <= |data|
    decreases ty, 1, 0
  {
    match DecSize(data, pos)
    case Fail => Fail
    case Ok(n, p) =>
      match DecFront(ty, ListOf(init), n, data, p)
      case Fail => Fail
      case Ok(vs, q) => Ok(VForwardList(vs), q)
  }

  function DecMap(ty: Ty, init: Val, data: Bytes, pos: nat): (r: Result<Val>)
    requires ty.TMap? && pos <= |data|
    ensures r.Ok? ==> pos <= r.pos <= |data|
    decreases ty, 1, 0
  {
    match DecSize(data, pos)
    case Fail => Fail
    case Ok(n, p) =>
      match DecEntries(ty, MapOf(init), n, data, p)
      case Fail => Fail
      case Ok(m, q) => Ok(VMap(m), q)
  }

  function DecSet(ty: Ty, init: Val, data: Bytes, pos: nat): (r: Result<Val>)
    requires ty.TSet? && pos <= |data|
    ensures r.Ok? ==> pos <= r.pos <= |data|
    decreases ty, 1, 0
  {
    match DecSize(data, pos)
    case Fail => Fail
    case Ok(n, p) =>
      match DecMembers(ty, SetOf(init), n, data, p)
      case Fail => Fail
      case Ok(xs, q) => Ok(VSet(xs), q)
  }

  /** Nothing left to read, or an announced size of zero, leaves every field as it is. */
  function DecStruct(ty: Ty, init: Val, data: Bytes, pos: nat): (r: Result<Val>)
    requires ty.TStruct? && pos <= |data|
    ensures r.Ok? ==> pos <= r.pos <= |data|
    decreases ty, 1, 0
  {
    var cur := FieldsOf(init, ty.fields);
    if pos == |data| then Ok(VStruct(cur), pos)
    else
      match DecSize(data, pos)
      case Fail => Fail
      case Ok(size, flag) =>
        if size == 0 then Ok(VStruct(cur), flag)
        else if |data| - flag < size then Fail
        else
          match DecFields(ty, cur, |cur|, data, flag, size)
          case Failed => Fail
          case Stopped(vs, p) => Ok(VStruct(vs), p)
          case Running(vs, _) => Ok(VStruct(vs), flag + size)
  }

  /** `cur` after its first `i` elements have been read in place. */
  function DecElements(ty: Ty, cur: seq<Val>, i: nat, data: Bytes, pos: nat): (r: Result<seq<Val>>)
    requires ty.TSeq? && i <= |cur| && pos <= |data|
    ensures r.Ok? ==> pos <= r.pos <= |data| && |r.value| == |cur|
    decreases ty, 0, i
  {
    if i == 0 then Ok(cur, pos)
    else
      match DecElements(ty, cur, i - 1, data, pos)
      case Fail => Fail
      case Ok(vs, p) =>
        match Dec(ty.elem, vs[i - 1], data, p)
        case Fail => Fail
        case Ok(v, q) => Ok(vs[i - 1 := v], q)
  }

  function DecFront(ty: Ty, cur: seq<Val>, i: nat, data: Bytes, pos: nat): (r: Result<seq<Val>>)
    requires ty.TForwardList? && pos <= |data|
    ensures r.Ok? ==> pos <= r.pos <= |data|
    decreases ty, 0, i
  {
    if i == 0 then Ok(cur, pos)
    else
      match DecFront(ty, cur, i - 1, data, pos)
      case Fail => Fail
      case Ok(vs, p) =>
        match Dec(ty.elem, Default(ty.elem), data, p)
        case Fail => Fail
        case Ok(v, q) => Ok([v] + vs, q)
  }

  function DecEntries(ty: Ty, cur: map<Val, Val>, i: nat, data: Bytes, pos: nat): (r: Result<map<Val, Val>>)
    requires ty.TMap? && pos <= |data|
    ensures r.Ok? ==> pos <= r.pos <= |data|
    decreases ty, 0, i
  {
    if i == 0 then Ok(cur, pos)
    else
      match DecEntries(ty, cur, i - 1, data, pos)
      case Fail => Fail
      case Ok(m, p) =>
        match Dec(ty.key, Default(ty.key), data, p)
        case Fail => Fail
        case Ok(k, q) =>
          match Dec(ty.value, Default(ty.value), data, q)
          case Fail => Fail
          case Ok(v, q') => Ok(Emplace(m, k, v), q')
  }

  function DecMembers(ty: Ty, cur: set<Val>, i: nat, data: Bytes, pos: nat): (r: Result<set<Val>>)
    requires ty.TSet? && pos <= |data|
    ensures r.Ok? ==> pos <= r.pos <= |data|
    decreases ty, 0, i
  {
    if i == 0 then Ok(cur, pos)
    else
      match DecMembers(ty, cur, i - 1, data, pos)
      case Fail => Fail
      case Ok(xs, p) =>
        match Dec(ty.elem, Default(ty.elem), data, p)
        case Fail => Fail
        case Ok(v, q) => Ok(xs + {v}, q)
  }

  /** After each field the struct decoder stops, successfully, once the announced size is used up. */
  datatype Progress =
    | Failed
    | Stopped(vs: seq<Val>, pos: nat)
    | Running(vs: seq<Val>, pos: nat)

  function DecFields(ty: Ty, cur: seq<Val>, i: nat, data: Bytes, flag: nat, size: nat): (r: Progress)
    requires ty.TStruct? && i <= |ty.fields| == |cur| && flag <= |data|
    ensures !r.Failed? ==> flag <= r.pos <= |data| && |r.vs| == |cur|
    decreases ty, 0, i
  {
    if i == 0 then Running(cur, flag)
    else
      match DecFields(ty, cur, i - 1, data, flag, size)
      case Failed => Failed
      case Stopped(vs, p) => Stopped(vs, p)
      case Running(vs, p) =>
        match Dec(ty.fields[i - 1].ty, vs[i - 1], data, p)
        case Fail => Failed
        case Ok(v, q) =>
          if q - flag >= size then Stopped(vs[i - 1 := v], q) else Running(vs[i - 1 := v], q)
  }

  // ---------------------------------------------------------------- typing and schema evolution

  /** A reader of type `ty` understands `o`: struct field lists may differ in length, unless `exact`. */
  predicate Readable(ty: Ty, o: Obj, exact: bool)
    decreases ty
  {
    match ty
    case TBool => o.OBool?
    case TByte => o.OByte?
    case TInt(w, signed) => o.OInt? && InRange(w, signed, o.n)
    case TString => o.OString?
    case TSeq(elem) => o.OSeq? && forall i :: 0 <= i < |o.os| ==> Readable(elem, o.os[i], exact)
    case TForwardList(elem) => o.OForwardList? && forall i :: 0 <= i < |o.fs| ==> Readable(elem, o.fs[i], exact)
    case TMap(key, value) =>
      o.OMap? && forall i :: 0 <= i < |o.entries| ==>
        Readable(key, o.entries[i].key, true) && Readable(value, o.entries[i].value, exact)
    case TSet(elem) => o.OSet? && forall i :: 0 <= i < |o.xs| ==> Readable(elem, o.xs[i], true)
    case TStruct(fs) =>
      o.OStruct? && (exact ==> |o.fields| == |fs|)
      && forall i :: 0 <= i < |fs| && i < |o.fields| ==> Readable(fs[i].ty, o.fields[i], exact)
  }

  predicate HasType(ty: Ty, o: Obj) { Readable(ty, o, true) }

  /** One struct field list is a prefix of the other, recursively; map keys and set elements are identical. */
  predicate Compatible(writer: Ty, reader: Ty)
    decreases writer
  {
    match writer
    case TSeq(e) => reader.TSeq? && Compatible(e, reader.elem)
    case TForwardList(e) => reader.TForwardList? && Compatible(e, reader.elem)
    case TMap(k, v) => reader.TMap? && k == reader.key && Compatible(v, reader.value)
    case TStruct(fs) =>
      reader.TStruct?
      && forall i :: 0 <= i < |fs| && i < |reader.fields| ==> Compatible(fs[i].ty, reader.fields[i].ty)
    case _ => writer == reader
  }

  /** What a target holding `init` should hold after reading `o`: common struct fields are written, the
      reader's further fields stay, surplus fields of the writer vanish; vectors keep only the written
      elements; forward lists, maps and sets add to what is there, and a present map key keeps its value. */
  function Merge(ty: Ty, init: Val, o: Obj): Val
    decreases ty, 2, 0
  {
    match ty
    case TSeq(_) => if o.OSeq? then MergeVector(ty, init, o.os) else Abs(o)
    case TForwardList(_) => if o.OForwardList? then MergeForwardList(ty, init, o.fs) else Abs(o)
    case TMap(_, _) => if o.OMap? then MergeMap(ty, init, o.entries) else Abs(o)
    case TSet(_) => if o.OSet? then MergeSet(ty, init, o.xs) else Abs(o)
    case TStruct(_) => if o.OStruct? then MergeStruct(ty, init, o.fields) else Abs(o)
    case _ => Abs(o)
  }

  function MergeVector(ty: Ty, init: Val, os: seq<Obj>): Val
    requires ty.TSeq?
    decreases ty, 1, 0
  {
    VSeq(MergeElements(ty, Resize(SeqOf(init), |os|, Default(ty.elem)), os, |os|))
  }

  function MergeForwardList(ty: Ty, init: Val, os: seq<Obj>): Val
    requires ty.TForwardList?
    decreases ty, 1, 0
  {
    VForwardList(MergeBack(ty, os, |os|) + ListOf(init))
  }

  function MergeMap(ty: Ty, init: Val, es: seq<Entry>): Val
    requires ty.TMap?
    decreases ty, 1, 0
  {
    VMap(MergeEntries(ty, MapOf(init), es, |es|))
  }

  function MergeSet(ty: Ty, init: Val, os: seq<Obj>): Val
    requires ty.TSet?
    decreases ty, 1, 0
  {
    VSet(SetOf(init) + MergeMembers(ty, os, |os|))
  }

  function MergeStruct(ty: Ty, init: Val, os: seq<Obj>): Val
    requires ty.TStruct?
    decreases ty, 1, 0
  {
    var cur := FieldsOf(init, ty.fields);
    VStruct(MergeFields(ty, cur, os, if |cur| < |os| then |cur| else |os|))
  }

  function MergeElements(ty: Ty, cur: seq<Val>, os: seq<Obj>, n: nat): (vs: seq<Val>)
    requires ty.TSeq? && n <= |os| == |cur|
    ensures |vs| == |cur|
    ensures forall i :: 0 <= i < |cur| ==> vs[i] == if i < n then Merge(ty.elem, cur[i], os[i]) else cur[i]
    decreases ty, 0, n
  {
    if n == 0 then cur else MergeElements(ty, cur, os, n - 1)[n - 1 := Merge(ty.elem, cur[n - 1], os[n - 1])]
  }

  /** The merged images of the last `n` objects, in order. */
  function MergeBack(ty: Ty, os: seq<Obj>, n: nat): (vs: seq<Val>)
    requires ty.TForwardList? && n <= |os|
    ensures |vs| == n
    ensures forall i :: 0 <= i < n ==> vs[i] == Merge(ty.elem, Default(ty.elem), os[|os| - n + i])
    decreases ty, 0, n
  {
    if n == 0 then []
    else [Merge(ty.elem, Default(ty.elem), os[|os| - n])] + MergeBack(ty, os, n - 1)
  }

  function MergeEntries(ty: Ty, cur: map<Val, Val>, es: seq<Entry>, n: nat): map<Val, Val>
    requires ty.TMap? && n <= |es|
    decreases ty, 0, n
  {
    if n == 0 then cur
    else
      Emplace(MergeEntries(ty, cur, es, n - 1),
              Merge(ty.key, Default(ty.key), es[n - 1].key), Merge(ty.value, Default(ty.value), es[n - 1].value))
  }

  function MergeMembers(ty: Ty, os: seq<Obj>, n: nat): set<Val>
    requires ty.TSet? && n <= |os|
    decreases ty, 0, n
  {
    if n == 0 then {} else MergeMembers(ty, os, n - 1) + {Merge(ty.elem, Default(ty.elem), os[n - 1])}
  }

  function MergeFields(ty: Ty, cur: seq<Val>, os: seq<Obj>, n: nat): (vs: seq<Val>)
    requires ty.TStruct? && n <= |os| && n <= |cur| == |ty.fields|
    ensures |vs| == |cur|
    ensures forall i :: 0 <= i < |cur| ==>
      vs[i] == if i < n then Merge(ty.fields[i].ty, cur[i], os[i]) else cur[i]
    decreases ty, 0, n
  {
    if n == 0 then cur
    else MergeFields(ty, cur, os, n - 1)[n - 1 := Merge(ty.fields[n - 1].ty, cur[n - 1], os[n - 1])]
  }
}
