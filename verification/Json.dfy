/** The JSON tree of Include/util/json.hpp, its recursive-descent parser and its pretty printer. */
module Json {
  import opened Buffers

  datatype Type = TString | TInteger | TFloat | TBoolean | TNull | TObject | TArray

  /** A node. `kv` are the children of the key map in its iteration order, sorted by key; `arr` the array
      children. A missing child container and an empty one are the same here. */
  datatype Node = Node(typ: Type, key: string, value: string, kv: seq<Node>, arr: seq<Node>)

  datatype Result = Reject | Accept(node: Node, pos: nat)

  /** Which part of a node `decode` starts with. */
  datatype Start = AtKey | AtType

  const BLANK := Node(TObject, "", "", [], [])

  // ---------------------------------------------------------------- scanning

  predicate IsSpace(c: char) { c == '\r' || c == '\n' || c == '\t' || c == ' ' }

  predicate IsDigit(c: char) { '0' <= c <= '9' }

  predicate IsNumberChar(c: char) { IsDigit(c) || c == '.' || c == '-' }

  predicate IsQuote(c: char) { c == '"' || c == '\'' }

  function SkipSpace(d: string, p: nat): (q: nat)
    requires p <= |d|
    ensures p <= q <= |d|
    decreases |d| - p
  {
    if p < |d| && IsSpace(d[p]) then SkipSpace(d, p + 1) else p
  }

  function SkipNumber(d: string, p: nat): (q: nat)
    requires p <= |d|
    ensures p <= q <= |d|
    decreases |d| - p
  {
    if p < |d| && IsNumberChar(d[p]) then SkipNumber(d, p + 1) else p
  }

  /** The first `ch` from `p` on, or the end. */
  function Find(ch: char, d: string, p: nat): (q: nat)
    requires p <= |d|
    ensures p <= q <= |d|
    ensures q < |d| ==> d[q] == ch
    decreases |d| - p
  {
    if p < |d| && d[p] != ch then Find(ch, d, p + 1) else p
  }

  /** The first `ch` from `p` on that no backslash precedes, or the end. */
  function FindUnescaped(ch: char, d: string, p: nat): (q: nat)
    requires 0 < p <= |d|
    ensures p <= q <= |d|
    decreases |d| - p
  {
    if p < |d| && !(d[p] == ch && d[p - 1] != '\\') then FindUnescaped(ch, d, p + 1) else p
  }

  // ---------------------------------------------------------------- parsing

  /** The checks on the characters of a number: at most one point, not at the end and not right after the
      sign, and no first minus sign elsewhere than in front. */
  predicate NumberText(v: string) {
    && v != []
    && (forall i, j :: 0 <= i < j < |v| ==> !(v[i] == '.' && v[j] == '.'))
    && v[|v| - 1] != '.'
    && ('-' in v ==> v[0] == '-')
    && !(|v| >= 2 && v[0] == '-' && v[1] == '.')
  }

  function ParseNumber(key: string, d: string, p: nat): (r: Result)
    requires p < |d|
    ensures r.Accept? ==> p < r.pos < |d|
  {
    var q := SkipNumber(d, p + 1);
    if q == |d| || !NumberText(d[p..q]) then Reject
    else Accept(Node(if '.' in d[p..q] then TFloat else TInteger, key, d[p..q], [], []), q)
  }

  /** The text between the quotes, as it stands. */
  function ParseString(key: string, d: string, p: nat): (r: Result)
    requires p < |d|
    ensures r.Accept? ==> p < r.pos <= |d|
  {
    var q := FindUnescaped(d[p], d, p + 1);
    if q == |d| then Reject else Accept(Node(TString, key, d[p + 1..q], [], []), q + 1)
  }

  function ParseSymbol(key: string, d: string, p: nat, typ: Type, symbol: string): (r: Result)
    requires At(d, p, symbol)
    ensures r.Accept? ==> p + |symbol| <= r.pos < |d|
  {
    var q := SkipSpace(d, p + |symbol|);
    if q == |d| || (d[q] != ',' && d[q] != '}') then Reject else Accept(Node(typ, key, symbol, [], []), q)
  }

  /** Lexicographic order of keys. */
  predicate Less(a: string, b: string) {
    if b == "" then false
    else if a == "" then true
    else a[0] < b[0] || (a[0] == b[0] && Less(a[1..], b[1..]))
  }

  /** `emplace` into the key map: a present key keeps its node. */
  function Emplace(kv: seq<Node>, n: Node): seq<Node> {
    if kv == [] then [n]
    else if kv[0].key == n.key then kv
    else if Less(n.key, kv[0].key) then [n] + kv
    else [kv[0]] + Emplace(kv[1..], n)
  }

  predicate HasContent(n: Node) { n.value != "" || n.kv != [] || n.arr != [] }

  /** What parse_object does with a decoded child: without a key and without content it is dropped. */
  function Attach(node: Node, child: Node): Node {
    if child.key != "" then node.(kv := Emplace(node.kv, child))
    else if HasContent(child) then node.(arr := node.arr + [child])
    else node
  }

  function Decode(d: string, p: nat, start: Start): (r: Result)
    requires p <= |d|
    ensures r.Accept? ==> p <= r.pos <= |d|
    decreases |d| - p, 2
  {
    match start
    case AtType => DecodeType("", d, p)
    case AtKey =>
      var k := SkipSpace(d, p);
      if k == |d| then Reject
      else if IsQuote(d[k]) then
        var e := Find(d[k], d, k + 1);
        if e == |d| then Reject else DecodeType(d[k + 1..e], d, e + 1)
      else if d[k] == '}' then Accept(BLANK, k)
      else Reject
  }

  function DecodeType(key: string, d: string, p: nat): (r: Result)
    requires p <= |d|
    ensures r.Accept? ==> p <= r.pos <= |d|
    decreases |d| - p, 1
  {
    var c := SkipSpace(d, p);
    if c == |d| || (key != "" && d[c] != ':') then Reject
    else
      var q := if key == "" then c else SkipSpace(d, c + 1);
      if q == |d| then Reject else DecodeValue(key, d, q)
  }

  function DecodeValue(key: string, d: string, q: nat): (r: Result)
    requires q < |d|
    ensures r.Accept? ==> q <= r.pos <= |d|
    decreases |d| - q, 0
  {
    var ch := d[q];
    if ch == '{' then DecodeChildren(BLANK.(key := key), d, q + 1, AtKey, '}')
    else if ch == '[' then DecodeChildren(BLANK.(key := key, typ := TArray), d, q + 1, AtType, ']')
    else if ch == '-' && q + 1 == |d| then Reject
    else if IsDigit(ch) || (ch == '-' && IsDigit(d[q + 1])) then ParseNumber(key, d, q)
    else if IsQuote(ch) then ParseString(key, d, q)
    else if At(d, q, "true") then ParseSymbol(key, d, q, TBoolean, "true")
    else if At(d, q, "false") then ParseSymbol(key, d, q, TBoolean, "false")
    else if At(d, q, "null") then ParseSymbol(key, d, q, TNull, "null")
    else Accept(BLANK.(key := key), q)
  }

  /** parse_object: children up to the closing `symbol`. */
  function DecodeChildren(node: Node, d: string, p: nat, start: Start, symbol: char): (r: Result)
    requires p <= |d|
    ensures r.Accept? ==> p < r.pos <= |d|
    decreases |d| - p, 3
  {
    match Decode(d, p, start)
    case Reject => Reject
    case Accept(child, e) =>
      var q := SkipSpace(d, e);
      if q == |d| then Reject
      else
        var node' := Attach(node, child);
        if d[q] == symbol then Accept(node', q + 1)
        else if d[q] == ',' then DecodeChildren(node', d, q + 1, start, symbol)
        else Reject
  }

  /** `json::decode`: the root starts at its type. */
  function DecodeText(d: string): Result { Decode(d, 0, AtType) }

  // ---------------------------------------------------------------- printing

  function Spaces(n: nat): (s: string)
    ensures |s| == n && forall i :: 0 <= i < n ==> s[i] == ' '
  {
    seq(n, _ => ' ')
  }

  function KeyText(n: Node): string {
    if n.key == "" then "" else "\"" + n.key + "\": "
  }

  /** A node's text after the separator and the indentation in front. */
  function Text(n: Node, indent: nat): string
    decreases n, 2
  {
    KeyText(n) + ValueText(n, indent)
  }

  function ValueText(n: Node, indent: nat): string
    decreases n, 1
  {
    match n.typ
    case TString => "\"" + n.value + "\""
    case TObject => "{\n" + Lines(n.kv, |n.kv|, indent + 4) + "\n" + Spaces(indent) + "}"
    case TArray => "[\n" + Lines(n.arr, |n.arr|, indent + 4) + "\n" + Spaces(indent) + "]"
    case _ => n.value
  }

  function Separator(first: bool): string { if first then "" else ",\n" }

  /** The first `n` children, separated by commas. */
  function Lines(ns: seq<Node>, n: nat, indent: nat): string
    requires n <= |ns|
    decreases ns, 0, n
  {
    if n == 0 then ""
    else Lines(ns, n - 1, indent) + Separator(n == 1) + Spaces(indent) + Text(ns[n - 1], indent)
  }

  /** `json::format` of a tree. */
  function Format(n: Node): string { Text(n, 0) }

  // ---------------------------------------------------------------- trees that survive

  /** Raw text that ends at its closing quote: every double quote in it follows a backslash, and it does not
      end in a backslash. */
  predicate RawString(v: string) {
    && (forall i :: 0 <= i < |v| && v[i] == '"' ==> i > 0 && v[i - 1] == '\\')
    && (v != "" ==> v[|v| - 1] != '\\')
  }

  /** Text the parser takes for a number of the given type, as a whole. */
  predicate NumberValue(typ: Type, v: string) {
    && NumberText(v) && (forall i :: 0 < i < |v| ==> IsNumberChar(v[i]))
    && (IsDigit(v[0]) || (|v| >= 2 && v[0] == '-' && IsDigit(v[1])))
    && (typ == TFloat <==> '.' in v)
  }

  predicate Symbol(n: Node) { n.typ == TBoolean || n.typ == TNull }

  /** Trees whose texts can be told apart: the keys of an object are sorted, not empty and free of double quotes,
      strings and numbers are what the parser takes as such, and only containers have children. */
  predicate Lexical(n: Node)
    decreases n
  {
    match n.typ
    case TString => RawString(n.value) && n.kv == [] && n.arr == []
    case TInteger => NumberValue(TInteger, n.value) && n.kv == [] && n.arr == []
    case TFloat => NumberValue(TFloat, n.value) && n.kv == [] && n.arr == []
    case TBoolean => (n.value == "true" || n.value == "false") && n.kv == [] && n.arr == []
    case TNull => n.value == "null" && n.kv == [] && n.arr == []
    case TObject =>
      && n.value == "" && n.arr == []
      && (forall i :: 0 <= i < |n.kv| ==> n.kv[i].key != "" && '"' !in n.kv[i].key && Lexical(n.kv[i]))
      && (forall i, j :: 0 <= i < j < |n.kv| ==> Less(n.kv[i].key, n.kv[j].key))
    case TArray =>
      && n.value == "" && n.kv == []
      && (forall i :: 0 <= i < |n.arr| ==> n.arr[i].key == "" && Lexical(n.arr[i]))
  }

  /** A boolean or a null at the end of an array. */
  predicate LastSymbol(n: Node) { n.typ == TArray && n.arr != [] && Symbol(n.arr[|n.arr| - 1]) }

  /** Some array in the tree ends in a boolean or a null. */
  predicate Refused(n: Node)
    decreases n
  {
    || LastSymbol(n)
    || (exists i :: 0 <= i < |n.kv| && Refused(n.kv[i]))
    || (exists i :: 0 <= i < |n.arr| && Refused(n.arr[i]))
  }

  /** The tree without the array elements that have no content, from the leaves up. */
  function Pruned(n: Node): Node
    decreases n, 1
  {
    n.(kv := PrunedMembers(n.kv, |n.kv|), arr := PrunedElements(n.arr, |n.arr|))
  }

  function PrunedMembers(ns: seq<Node>, i: nat): (r: seq<Node>)
    requires i <= |ns|
    ensures |r| == i && forall j :: 0 <= j < i ==> r[j].key == ns[j].key
    decreases ns, 0, i
  {
    if i == 0 then [] else PrunedMembers(ns, i - 1) + [Pruned(ns[i - 1])]
  }

  function PrunedElements(ns: seq<Node>, i: nat): (r: seq<Node>)
    requires i <= |ns|
    ensures |r| <= i
    decreases ns, 0, i
  {
    if i == 0 then []
    else PrunedElements(ns, i - 1) + (if HasContent(Pruned(ns[i - 1])) then [Pruned(ns[i - 1])] else [])
  }

  /** Every array element in the tree has content, and no array ends in a boolean or a null. */
  predicate Printable(n: Node)
    decreases n
  {
    && Lexical(n)
    && !LastSymbol(n)
    && (forall i :: 0 <= i < |n.kv| ==> Printable(n.kv[i]))
    && (forall i :: 0 <= i < |n.arr| ==> HasContent(n.arr[i]) && Printable(n.arr[i]))
  }
}
