/** Decoding what the pretty printer prints. */
module JsonProofs {
  import opened Buffers
  import opened Json

  // ---------------------------------------------------------------- white space

  /** A line break and an indentation are skipped. */
  lemma {:induction false} SkipIndent(d: string, p: nat, n: nat)
    requires At(d, p, Spaces(n)) && p + n < |d| && !IsSpace(d[p + n])
    ensures SkipSpace(d, p) == p + n
    decreases n
  {
    if n > 0 {
      assert Spaces(n) == [' '] + Spaces(n - 1);
      Split(d, p, [' '], Spaces(n - 1));
      ElementAt(d, p, [' '], 0);
      SkipIndent(d, p + 1, n - 1);
    }
  }

  lemma SkipBreak(d: string, p: nat, n: nat)
    requires At(d, p, "\n" + Spaces(n)) && p + 1 + n < |d| && !IsSpace(d[p + 1 + n])
    ensures SkipSpace(d, p) == p + 1 + n
  {
    Split(d, p, "\n", Spaces(n));
    ElementAt(d, p, "\n", 0);
    SkipIndent(d, p + 1, n);
  }

  lemma {:induction false} SkipTwice(d: string, p: nat)
    requires p <= |d|
    ensures SkipSpace(d, SkipSpace(d, p)) == SkipSpace(d, p)
    decreases |d| - p
  {
    if p < |d| && IsSpace(d[p]) {
      SkipTwice(d, p + 1);
    }
  }

  // ---------------------------------------------------------------- scalars

  lemma {:induction false} FindKey(d: string, p: nat, key: string)
    requires '"' !in key && At(d, p, key + "\"")
    ensures Find('"', d, p) == p + |key|
    decreases |key|
  {
    if key == "" {
      ElementAt(d, p, key + "\"", 0);
    } else {
      assert key + "\"" == [key[0]] + (key[1..] + "\"");
      ElementAt(d, p, key + "\"", 0);
      Split(d, p, [key[0]], key[1..] + "\"");
      FindKey(d, p + 1, key[1..]);
    }
  }

  /** The closing quote is found after the `i` characters already passed. */
  lemma {:induction false} FindClosing(d: string, p: nat, v: string, i: nat)
    requires i <= |v| && At(d, p, "\"" + v + "\"") && RawString(v)
    ensures FindUnescaped('"', d, p + 1 + i) == p + 1 + |v|
    decreases |v| - i
  {
    var t := "\"" + v + "\"";
    ElementAt(d, p, t, i);
    ElementAt(d, p, t, 1 + i);
    if i < |v| {
      FindClosing(d, p, v, i + 1);
    }
  }

  lemma {:induction false} UnescapedIsFirst(ch: char, d: string, p: nat)
    requires 0 < p <= |d|
    ensures var q := FindUnescaped(ch, d, p);
            && (q < |d| ==> d[q] == ch && d[q - 1] != '\\')
            && forall k :: p <= k < q ==> !(d[k] == ch && d[k - 1] != '\\')
    decreases |d| - p
  {
    if p < |d| && !(d[p] == ch && d[p - 1] != '\\') { UnescapedIsFirst(ch, d, p + 1); }
  }

  /** A printed string is read back exactly if it is raw text: the printer does not escape. */
  lemma QuotedIff(key: string, d: string, p: nat, v: string)
    requires At(d, p, "\"" + v + "\"")
    ensures p < |d|
    ensures ParseString(key, d, p) == Accept(Node(TString, key, v, [], []), p + |v| + 2) <==> RawString(v)
  {
    var t := "\"" + v + "\"";
    ElementAt(d, p, t, 0);
    ElementAt(d, p, t, |v| + 1);
    forall i | 0 <= i < |v| ensures d[p + 1 + i] == v[i] { ElementAt(d, p, t, i + 1); }
    assert d[p + 1..p + 1 + |v|] == v;
    if RawString(v) { FindClosing(d, p, v, 0); }
    UnescapedIsFirst('"', d, p + 1);
    hide FindUnescaped, At, IsSpace;
    var q := FindUnescaped('"', d, p + 1);
    if q == p + 1 + |v| {
      forall i | 0 <= i < |v| && v[i] == '"' ensures i > 0 && v[i - 1] == '\\' {
        assert d[p + 1 + i] == '"';
      }
    }
  }

  lemma {:induction false} NumberEnds(d: string, p: nat, v: string, i: nat)
    requires 0 < i <= |v| && At(d, p, v) && p + |v| < |d| && !IsNumberChar(d[p + |v|])
    requires forall j :: 0 < j < |v| ==> IsNumberChar(v[j])
    ensures SkipNumber(d, p + i) == p + |v|
    decreases |v| - i
  {
    if i < |v| {
      ElementAt(d, p, v, i);
      NumberEnds(d, p, v, i + 1);
    }
  }

  /** What may follow a value: a comma, or a line break and the closing bracket. */
  predicate Followed(d: string, q: nat, n: Node) {
    && q < |d| && (d[q] == ',' || d[q] == '\n')
    && var e := SkipSpace(d, q);
       e < |d| && (d[e] == ',' || d[e] == '}' || (d[e] == ']' && !Symbol(n)))
  }

  /** The parser accepts `n` and stops where only white space separates it from the end `q` of the text. */
  predicate Gives(r: Result, n: Node, d: string, q: nat)
    requires q <= |d|
  {
    r.Accept? && r.node == n && r.pos <= |d| && SkipSpace(d, r.pos) == SkipSpace(d, q)
  }

  lemma DecodeString(n: Node, d: string, p: nat)
    requires Lexical(n) && n.typ == TString
    requires At(d, p, "\"" + n.value + "\"")
    ensures DecodeValue(n.key, d, p) == Accept(n, p + |n.value| + 2)
  {
    hide DecodeChildren, ParseNumber, ParseString, RawString, NumberValue, At;
    ElementAt(d, p, "\"" + n.value + "\"", 0);
    QuotedIff(n.key, d, p, n.value);
  }

  lemma DecodeNumber(n: Node, d: string, p: nat)
    requires Lexical(n) && (n.typ == TInteger || n.typ == TFloat)
    requires At(d, p, n.value) && p < |d| && Followed(d, p + |n.value|, n)
    ensures DecodeValue(n.key, d, p) == Accept(n, p + |n.value|)
  {
    ElementAt(d, p, n.value, 0);
    NumberEnds(d, p, n.value, 1);
    if n.value[0] == '-' {
      ElementAt(d, p, n.value, 1);
    }
    hide DecodeChildren, ParseString, NumberText, SkipSpace, SkipNumber, RawString;
  }

  lemma NotAnother(d: string, p: nat, v: string, t: string)
    requires At(d, p, v) && v != "" && t != "" && v[0] != t[0]
    ensures !At(d, p, t)
  {
    ElementAt(d, p, v, 0);
    if p + |t| <= |d| {
      assert d[p..p + |t|][0] == d[p];
    }
  }

  lemma DecodeSymbol(n: Node, d: string, p: nat)
    requires Lexical(n) && Symbol(n)
    requires At(d, p, n.value) && p < |d| && Followed(d, p + |n.value|, n)
    ensures Gives(DecodeValue(n.key, d, p), n, d, p + |n.value|)
  {
    SkipTwice(d, p + |n.value|);
    ElementAt(d, p, n.value, 0);
    if n.value != "true" {
      NotAnother(d, p, n.value, "true");
    }
    if n.value == "null" {
      NotAnother(d, p, n.value, "false");
    }
    hide DecodeChildren, ParseString, ParseNumber, SkipSpace, At;
  }

  lemma DecodeScalar(n: Node, indent: nat, d: string, p: nat)
    requires Lexical(n) && n.typ != TObject && n.typ != TArray
    requires At(d, p, ValueText(n, indent)) && p < |d|
    requires Followed(d, p + |ValueText(n, indent)|, n)
    ensures Gives(DecodeValue(n.key, d, p), n, d, p + |ValueText(n, indent)|)
  {
    hide DecodeValue, At, SkipSpace;
    if n.typ == TString {
      DecodeString(n, d, p);
    } else if Symbol(n) {
      DecodeSymbol(n, d, p);
    } else {
      DecodeNumber(n, d, p);
    }
  }

  // ---------------------------------------------------------------- children

  ghost function Kids(n: Node): seq<Node> { if n.typ == TObject then n.kv else n.arr }

  ghost function Close(n: Node): char { if n.typ == TObject then '}' else ']' }

  ghost function KidStart(n: Node): Start { if n.typ == TObject then AtKey else AtType }

  /** The node with what its first `i` children are read as. */
  ghost function Partial(n: Node, i: nat): Node
    requires i <= |Kids(n)|
  {
    if n.typ == TObject then n.(kv := PrunedMembers(n.kv, i)) else n.(arr := PrunedElements(n.arr, i))
  }

  /** A refusal from child `i` on. */
  ghost predicate RefusedFrom(n: Node, i: nat) {
    LastSymbol(n) || exists j :: i <= j < |Kids(n)| && Refused(Kids(n)[j])
  }

  lemma {:induction false} LessIsStrict(a: string, b: string)
    requires Less(a, b)
    ensures a != b && !Less(b, a)
    decreases |a|
  {
    if a != "" && a[0] == b[0] {
      LessIsStrict(a[1..], b[1..]);
    }
  }

  lemma {:induction false} EmplaceLast(kv: seq<Node>, n: Node)
    requires forall i :: 0 <= i < |kv| ==> Less(kv[i].key, n.key)
    ensures Emplace(kv, n) == kv + [n]
    decreases |kv|
  {
    if kv != [] {
      LessIsStrict(kv[0].key, n.key);
      EmplaceLast(kv[1..], n);
    }
  }

  lemma AttachNext(n: Node, i: nat)
    requires Lexical(n) && (n.typ == TObject || n.typ == TArray) && i < |Kids(n)|
    ensures Attach(Partial(n, i), Pruned(Kids(n)[i])) == Partial(n, i + 1)
  {
    if n.typ == TObject {
      AttachMember(n, i);
    } else {
      AttachElement(n, i);
    }
    hide Attach, Partial, Lexical;
  }

  lemma AttachMember(n: Node, i: nat)
    requires Lexical(n) && n.typ == TObject && i < |n.kv|
    ensures Attach(Partial(n, i), Pruned(n.kv[i])) == Partial(n, i + 1)
  {
    MemberOrder(n, i);
    hide Lexical, Emplace, Less, Pruned;
    assert Pruned(n.kv[i]).key == n.kv[i].key by { PrunedKeepsKey(n.kv[i]); }
    EmplaceLast(PrunedMembers(n.kv, i), Pruned(n.kv[i]));
  }

  lemma PrunedKeepsKey(n: Node)
    ensures Pruned(n).key == n.key && Pruned(n).value == n.value && Pruned(n).typ == n.typ
  {
  }

  lemma MemberOrder(n: Node, i: nat)
    requires Lexical(n) && n.typ == TObject && i < |n.kv|
    ensures n.kv[i].key != "" && forall j :: 0 <= j < i ==> Less(n.kv[j].key, n.kv[i].key)
  {
  }

  lemma AttachElement(n: Node, i: nat)
    requires Lexical(n) && n.typ == TArray && i < |n.arr|
    ensures Attach(Partial(n, i), Pruned(n.arr[i])) == Partial(n, i + 1)
  {
    assert n.arr[i].key == "";
    PrunedKeepsKey(n.arr[i]);
    hide Lexical, Emplace, Pruned, HasContent;
    var kept := PrunedElements(n.arr, i);
    assert kept + [] == kept;
  }

  lemma FirstChar(n: Node, indent: nat)
    requires Lexical(n)
    ensures ValueText(n, indent) != "" && !IsSpace(ValueText(n, indent)[0])
  {
    hide Lines;
    match n.typ
    case TBoolean =>
    case TNull =>
    case _ =>
  }

  /** The text of child `i` stands behind the text of the children before it. */
  lemma {:induction false} LineAt(ns: seq<Node>, n: nat, i: nat, indent: nat, d: string, p: nat)
    requires i < n <= |ns| && At(d, p, Lines(ns, n, indent))
    ensures
      var t := Separator(i == 0) + Spaces(indent) + Text(ns[i], indent);
      && At(d, p + |Lines(ns, i, indent)|, t)
      && |Lines(ns, i + 1, indent)| == |Lines(ns, i, indent)| + |t| <= |Lines(ns, n, indent)|
    ensures i + 1 < n ==> p + |Lines(ns, i + 1, indent)| < |d| && d[p + |Lines(ns, i + 1, indent)|] == ','
    decreases n
  {
    hide Text, Spaces, At;
    var t := Separator(n == 1) + Spaces(indent) + Text(ns[n - 1], indent);
    assert Lines(ns, n, indent) == Lines(ns, n - 1, indent) + t;
    Split(d, p, Lines(ns, n - 1, indent), t);
    Bounds(d, p + |Lines(ns, n - 1, indent)|, t);
    if i < n - 1 {
      LineAt(ns, n - 1, i, indent, d, p);
      if i == n - 2 {
        ElementAt(d, p + |Lines(ns, n - 1, indent)|, t, 0);
      }
    }
  }

  // ---------------------------------------------------------------- the round trip

  /** Whatever follows a container, and what must follow a scalar. */
  predicate EndsWell(d: string, q: nat, n: Node) {
    q <= |d| && (n.typ == TObject || n.typ == TArray || Followed(d, q, n))
  }

  /** What reading the text of a node gives: a refusal, or the pruned node. */
  predicate Reads(r: Result, n: Node, d: string, q: nat)
    requires q <= |d|
  {
    if Refused(n) then r == Reject else Gives(r, Pruned(n), d, q)
  }

  lemma ScalarIsKept(n: Node)
    requires Lexical(n) && n.typ != TObject && n.typ != TArray
    ensures !Refused(n) && Pruned(n) == n
  {
  }

  lemma {:induction false} DecodeNode(n: Node, indent: nat, d: string, p: nat)
    requires Lexical(n)
    requires p < |d| && At(d, p, ValueText(n, indent)) && EndsWell(d, p + |ValueText(n, indent)|, n)
    ensures Reads(DecodeValue(n.key, d, p), n, d, p + |ValueText(n, indent)|)
    decreases n, 2
  {
    hide Lexical, Pruned, Refused, DecodeValue, ValueText;
    if n.typ == TObject || n.typ == TArray {
      DecodeContainer(n, indent, d, p);
    } else {
      ScalarIsKept(n);
      DecodeScalar(n, indent, d, p);
    }
  }

  lemma MemberText(n: Node, indent: nat)
    requires n.key != ""
    ensures "\n" + Spaces(indent) + Text(n, indent)
         == ("\n" + Spaces(indent)) + (("\"" + (n.key + "\"")) + (": " + ValueText(n, indent)))
    ensures |Text(n, indent)| == |n.key| + 4 + |ValueText(n, indent)|
  {
    hide ValueText;
    assert Text(n, indent) == ("\"" + n.key + "\": ") + ValueText(n, indent);
  }

  /** A member of an object, from the line break in front of its key. */
  lemma {:induction false} DecodeMember(n: Node, indent: nat, d: string, s: nat)
    requires Lexical(n) && n.key != "" && '"' !in n.key
    requires At(d, s, "\n" + Spaces(indent) + Text(n, indent))
    requires EndsWell(d, s + 1 + indent + |Text(n, indent)|, n)
    ensures Reads(Decode(d, s, AtKey), n, d, s + 1 + indent + |Text(n, indent)|)
    decreases n, 3
  {
    hide Decode, DecodeValue, Text, ValueText, Lexical, EndsWell, Reads, At;
    var k := s + 1 + indent;
    var e := k + 1 + |n.key|;
    var v := ValueText(n, indent);
    MemberText(n, indent);
    Split(d, s, "\n" + Spaces(indent), ("\"" + (n.key + "\"")) + (": " + v));
    Split(d, k, "\"" + (n.key + "\""), ": " + v);
    Split(d, e + 1, ": ", v);
    FirstChar(n, indent);
    MemberPath(d, s, indent, n.key, v);
    DecodeNode(n, indent, d, e + 3);
  }

  /** From the line break to the value of a member: key, colon, value. */
  lemma MemberPath(d: string, s: nat, indent: nat, key: string, v: string)
    requires key != "" && '"' !in key && v != "" && !IsSpace(v[0])
    requires At(d, s, "\n" + Spaces(indent))
    requires At(d, s + 1 + indent, "\"" + (key + "\""))
    requires At(d, s + indent + |key| + 3, ": ")
    requires At(d, s + indent + |key| + 5, v)
    ensures s + indent + |key| + 5 < |d|
    ensures Decode(d, s, AtKey) == DecodeValue(key, d, s + indent + |key| + 5)
  {
    hide DecodeValue, Decode, Find, Spaces;
    var k := s + 1 + indent;
    var e := k + 1 + |key|;
    Split(d, k, "\"", key + "\"");
    Split(d, k + 1, key, "\"");
    assert d[k + 1..e] == key && e + 3 < |d|;
    hide At;
    ElementAt(d, k, "\"", 0);
    ElementAt(d, e + 1, ": ", 0);
    ElementAt(d, e + 1, ": ", 1);
    ElementAt(d, e + 3, v, 0);
    SkipBreak(d, s, indent);
    FindKey(d, k + 1, key);
    KeyPath(d, s, k, e, key);
  }

  lemma KeyPath(d: string, s: nat, k: nat, e: nat, key: string)
    requires s <= k < e && e + 3 < |d| && SkipSpace(d, s) == k && d[k] == '"' && Find('"', d, k + 1) == e
    requires d[k + 1..e] == key != "" && d[e + 1] == ':' && d[e + 2] == ' ' && !IsSpace(d[e + 3])
    ensures Decode(d, s, AtKey) == DecodeValue(key, d, e + 3)
  {
    hide DecodeValue;
    assert SkipSpace(d, e + 1) == e + 1;
    assert SkipSpace(d, e + 2) == SkipSpace(d, e + 3) == e + 3;
    hide SkipSpace, Find;
    assert DecodeType(key, d, e + 1) == DecodeValue(key, d, e + 3);
  }

  lemma ElementText(n: Node, indent: nat)
    requires n.key == ""
    ensures Text(n, indent) == ValueText(n, indent)
  {
    hide ValueText;
  }

  lemma {:induction false} DecodeElement(n: Node, indent: nat, d: string, s: nat)
    requires Lexical(n) && n.key == ""
    requires At(d, s, "\n" + Spaces(indent) + Text(n, indent))
    requires EndsWell(d, s + 1 + indent + |Text(n, indent)|, n)
    ensures Reads(Decode(d, s, AtType), n, d, s + 1 + indent + |Text(n, indent)|)
    decreases n, 3
  {
    hide Decode, DecodeValue, Text, ValueText, Lexical, EndsWell, Reads, At, Spaces;
    var v := ValueText(n, indent);
    ElementText(n, indent);
    Split(d, s, "\n" + Spaces(indent), v);
    FirstChar(n, indent);
    ElementPath(d, s, indent, v);
    DecodeNode(n, indent, d, s + 1 + indent);
  }

  lemma ElementPath(d: string, s: nat, indent: nat, v: string)
    requires v != "" && !IsSpace(v[0])
    requires At(d, s, "\n" + Spaces(indent)) && At(d, s + 1 + indent, v)
    ensures s + 1 + indent < |d|
    ensures Decode(d, s, AtType) == DecodeValue("", d, s + 1 + indent)
  {
    hide DecodeValue;
    ElementAt(d, s + 1 + indent, v, 0);
    SkipBreak(d, s, indent);
  }

  ghost function Tail(n: Node, indent: nat): string { "\n" + Spaces(indent) + [Close(n)] }

  ghost function Open(n: Node): string { if n.typ == TObject then "{\n" else "[\n" }

  lemma ContainerText(n: Node, indent: nat)
    requires n.typ == TObject || n.typ == TArray
    ensures ValueText(n, indent) == Open(n) + (Lines(Kids(n), |Kids(n)|, indent + 4) + Tail(n, indent))
  {
    hide Lines;
    var l := Lines(Kids(n), |Kids(n)|, indent + 4);
    assert Open(n) + l + "\n" + Spaces(indent) + [Close(n)] == Open(n) + (l + Tail(n, indent));
  }

  lemma OpenPath(n: Node, d: string, p: nat)
    requires n.typ == TObject || n.typ == TArray
    requires At(d, p, Open(n))
    ensures DecodeValue(n.key, d, p)
         == DecodeChildren(BLANK.(key := n.key, typ := n.typ), d, p + 1, KidStart(n), Close(n))
    ensures d[p + 1] == '\n'
  {
    ElementAt(d, p, Open(n), 0);
    ElementAt(d, p, Open(n), 1);
    hide DecodeChildren, ParseNumber, ParseString, ParseSymbol, At;
  }

  /** An object or an array from its opening bracket. */
  lemma {:induction false} DecodeContainer(n: Node, indent: nat, d: string, p: nat)
    requires Lexical(n) && (n.typ == TObject || n.typ == TArray)
    requires p < |d| && At(d, p, ValueText(n, indent))
    ensures DecodeValue(n.key, d, p)
         == if Refused(n) then Reject else Accept(Pruned(n), p + |ValueText(n, indent)|)
    decreases n, 1
  {
    hide Lexical, Lines, ValueText, Decode, DecodeValue, DecodeChildren, At, Partial, Pruned, Refused, RefusedFrom;
    var ns := Kids(n);
    var lines := Lines(ns, |ns|, indent + 4);
    ContainerText(n, indent);
    Split(d, p, Open(n), lines + Tail(n, indent));
    Split(d, p + 2, lines, Tail(n, indent));
    OpenPath(n, d, p);
    PartialZero(n);
    RefusedKids(n);
    if ns == [] {
      NoLines(ns, indent + 4);
      NoChildren(n, indent, d, p + 1);
    } else {
      DecodeKids(n, 0, indent, d, p + 2);
      NoLines(ns, indent + 4);
    }
  }

  lemma RefusedKids(n: Node)
    requires Lexical(n) && (n.typ == TObject || n.typ == TArray)
    ensures Refused(n) <==> RefusedFrom(n, 0)
    ensures Kids(n) == [] ==> !RefusedFrom(n, 0)
  {
    RefusedIs(n);
    hide Refused, Symbol;
    assert if n.typ == TObject then n.arr == [] else n.kv == [];
    hide Lexical;
    var ns := Kids(n);
    assert ns == if n.typ == TObject then n.kv else n.arr;
    assert RefusedFrom(n, 0) <==> LastSymbol(n) || exists j :: 0 <= j < |ns| && Refused(ns[j]);
  }

  lemma RefusedIs(n: Node)
    ensures Refused(n) <==>
      || LastSymbol(n)
      || (exists i :: 0 <= i < |n.kv| && Refused(n.kv[i]))
      || (exists i :: 0 <= i < |n.arr| && Refused(n.arr[i]))
  {
  }

  lemma NoLines(ns: seq<Node>, indent: nat)
    ensures Lines(ns, 0, indent) == ""
  {
  }

  lemma PartialZero(n: Node)
    requires Lexical(n) && (n.typ == TObject || n.typ == TArray)
    ensures Partial(n, 0) == BLANK.(key := n.key, typ := n.typ)
    ensures Kids(n) == [] ==> Partial(n, 0) == Pruned(n)
    ensures Partial(n, |Kids(n)|) == Pruned(n)
  {
  }

  lemma NoChildren(n: Node, indent: nat, d: string, p: nat)
    requires Lexical(n) && (n.typ == TObject || n.typ == TArray) && Kids(n) == []
    requires p < |d| && d[p] == '\n' && At(d, p + 1, Tail(n, indent))
    ensures DecodeChildren(Partial(n, 0), d, p, KidStart(n), Close(n)) == Accept(Pruned(n), p + indent + 3)
  {
    hide Lexical, Partial, Pruned;
    PartialZero(n);
    var e := p + 2 + indent;
    Split(d, p + 1, "\n" + Spaces(indent), [Close(n)]);
    ElementAt(d, e, [Close(n)], 0);
    SkipBreak(d, p + 1, indent);
    assert SkipSpace(d, p) == e;
    assert SkipSpace(d, e) == e;
    ClosingBracket(n, d, p, e);
  }

  /** A closing bracket where a child could start is no child. */
  lemma ClosingBracket(n: Node, d: string, p: nat, e: nat)
    requires n.typ == TObject || n.typ == TArray
    requires p <= e < |d| && SkipSpace(d, p) == e && SkipSpace(d, e) == e && d[e] == Close(n)
    ensures DecodeChildren(Partial(n, 0), d, p, KidStart(n), Close(n)) == Accept(Partial(n, 0), e + 1)
  {
    hide SkipSpace, Partial, DecodeChildren;
    assert Decode(d, p, KidStart(n)) == Accept(BLANK, e) by {
      if n.typ == TArray {
        NotAnother(d, e, d[e..e + 1], "true");
        NotAnother(d, e, d[e..e + 1], "false");
        NotAnother(d, e, d[e..e + 1], "null");
        hide ParseNumber, ParseString, ParseSymbol, At;
        assert DecodeType("", d, p) == DecodeValue("", d, e);
      }
    }
    ChildrenStep(Partial(n, 0), d, p, KidStart(n), Close(n), BLANK, e);
    assert Attach(Partial(n, 0), BLANK) == Partial(n, 0);
  }

  /** Where child `i` is read from: behind the opening bracket, or behind the comma. */
  ghost function KidPos(ns: seq<Node>, i: nat, indent: nat, base: nat): nat
    requires base > 0 && i <= |ns|
  {
    base + |Lines(ns, i, indent)| + (if i == 0 then -1 else 1)
  }

  /** The line break, the indentation and the text of child `i`. */
  lemma KidText(ns: seq<Node>, i: nat, indent: nat, d: string, base: nat)
    requires base > 0 && base <= |d| && d[base - 1] == '\n'
    requires i < |ns| && At(d, base, Lines(ns, |ns|, indent))
    ensures At(d, KidPos(ns, i, indent, base), "\n" + Spaces(indent) + Text(ns[i], indent))
    ensures KidPos(ns, i, indent, base) + 1 + indent + |Text(ns[i], indent)| == base + |Lines(ns, i + 1, indent)|
  {
    hide Text, Lines, At;
    LineAt(ns, |ns|, i, indent, d, base);
    NoLines(ns, indent);
    AfterSeparator(i == 0, indent, Text(ns[i], indent), d, base + |Lines(ns, i, indent)|);
  }

  lemma AfterSeparator(first: bool, indent: nat, t: string, d: string, b: nat)
    requires At(d, b, Separator(first) + Spaces(indent) + t)
    requires first ==> 0 < b <= |d| && d[b - 1] == '\n'
    ensures At(d, if first then b - 1 else b + 1, "\n" + Spaces(indent) + t)
  {
    if first {
      assert Separator(first) + Spaces(indent) + t == Spaces(indent) + t;
      Precede(d, b, Spaces(indent) + t);
      assert "\n" + (Spaces(indent) + t) == "\n" + Spaces(indent) + t;
    } else {
      assert Separator(first) + Spaces(indent) + t == "," + ("\n" + Spaces(indent) + t);
      Split(d, b, ",", "\n" + Spaces(indent) + t);
    }
  }

  lemma Precede(d: string, p: nat, t: string)
    requires 0 < p <= |d| && d[p - 1] == '\n' && At(d, p, t)
    ensures At(d, p - 1, "\n" + t)
  {
    assert d[p - 1..p + |t|] == [d[p - 1]] + d[p..p + |t|];
  }

  /** What stands behind child `i`: a comma, or the closing line. */
  lemma KidEnd(n: Node, i: nat, indent: nat, d: string, base: nat)
    requires (n.typ == TObject || n.typ == TArray) && i < |Kids(n)|
    requires At(d, base, Lines(Kids(n), |Kids(n)|, indent + 4))
    requires At(d, base + |Lines(Kids(n), |Kids(n)|, indent + 4)|, Tail(n, indent))
    ensures
      var e := base + |Lines(Kids(n), i + 1, indent + 4)|;
      && (i + 1 < |Kids(n)| || !LastSymbol(n) ==> Followed(d, e, Kids(n)[i]))
      && (i + 1 < |Kids(n)| ==> d[e] == ',' && SkipSpace(d, e) == e)
      && (i + 1 == |Kids(n)| ==> SkipSpace(d, e) == e + 1 + indent < |d| && d[e + 1 + indent] == Close(n))
  {
    hide Lines, Text, Symbol, At, Spaces;
    var ns := Kids(n);
    var e := base + |Lines(ns, i + 1, indent + 4)|;
    if i + 1 < |ns| {
      LineAt(ns, |ns|, i, indent + 4, d, base);
      assert SkipSpace(d, e) == e;
    } else {
      BracketEnd(n, indent, d, e);
    }
  }

  /** Behind the last line, up to the closing bracket. */
  lemma BracketEnd(n: Node, indent: nat, d: string, e: nat)
    requires At(d, e, Tail(n, indent))
    ensures e < |d| && d[e] == '\n' && SkipSpace(d, e) == e + 1 + indent < |d| && d[e + 1 + indent] == Close(n)
  {
    Bounds(d, e, Tail(n, indent));
    hide At, Spaces;
    Split(d, e, "\n" + Spaces(indent), [Close(n)]);
    Split(d, e, "\n", Spaces(indent));
    ElementAt(d, e, "\n", 0);
    ElementAt(d, e + 1 + indent, [Close(n)], 0);
    SkipBreak(d, e, indent);
    hide SkipSpace;
  }

  lemma ChildrenStep(node: Node, d: string, p: nat, start: Start, symbol: char, child: Node, e: nat)
    requires p <= |d| && e <= |d| && Gives(Decode(d, p, start), child, d, e)
    ensures SkipSpace(d, e) < |d| && d[SkipSpace(d, e)] == symbol ==>
      DecodeChildren(node, d, p, start, symbol) == Accept(Attach(node, child), SkipSpace(d, e) + 1)
    ensures SkipSpace(d, e) < |d| && d[SkipSpace(d, e)] == ',' && symbol != ',' ==>
      DecodeChildren(node, d, p, start, symbol)
        == DecodeChildren(Attach(node, child), d, SkipSpace(d, e) + 1, start, symbol)
  {
    hide Decode, Attach, SkipSpace;
  }

  lemma ChildIsLexical(n: Node, i: nat)
    requires Lexical(n) && (n.typ == TObject || n.typ == TArray) && i < |Kids(n)|
    ensures Lexical(Kids(n)[i])
    ensures n.typ == TObject ==> n.kv[i].key != "" && '"' !in n.kv[i].key
    ensures n.typ == TArray ==> n.arr[i].key == ""
  {
  }

  lemma ChildRefused(node: Node, d: string, p: nat, start: Start, symbol: char)
    requires p <= |d| && Decode(d, p, start) == Reject
    ensures DecodeChildren(node, d, p, start, symbol) == Reject
  {
    hide Decode;
  }

  /** A boolean or a null with the closing bracket behind it is refused. */
  lemma SymbolBeforeBracket(n: Node, indent: nat, d: string, s: nat)
    requires Lexical(n) && Symbol(n) && n.key == ""
    requires At(d, s, "\n" + Spaces(indent) + Text(n, indent))
    requires var e := SkipSpace(d, s + 1 + indent + |Text(n, indent)|); e < |d| && d[e] == ']'
    ensures Decode(d, s, AtType) == Reject
  {
    hide Decode, DecodeValue, Spaces, SkipSpace, At, IsSpace;
    SymbolText(n, indent);
    hide Text, Lexical;
    Split(d, s, "\n" + Spaces(indent), n.value);
    ElementPath(d, s, indent, n.value);
    SymbolRefused(n.value, d, s + 1 + indent);
  }

  lemma SymbolText(n: Node, indent: nat)
    requires Lexical(n) && Symbol(n) && n.key == ""
    ensures Text(n, indent) == n.value && n.value != "" && !IsSpace(n.value[0])
    ensures n.value == "true" || n.value == "false" || n.value == "null"
  {
  }

  lemma SymbolRefused(v: string, d: string, p: nat)
    requires v == "true" || v == "false" || v == "null"
    requires p < |d| && At(d, p, v)
    requires SkipSpace(d, p + |v|) < |d| && d[SkipSpace(d, p + |v|)] == ']'
    ensures DecodeValue("", d, p) == Reject
  {
    hide DecodeChildren, ParseString, ParseNumber, SkipSpace, At;
    ElementAt(d, p, v, 0);
    if v == "false" {
      NotAnother(d, p, v, "true");
    } else if v == "null" {
      NotAnother(d, p, v, "true");
      NotAnother(d, p, v, "false");
    }
  }

  /** The children from `i` on. */
  lemma {:induction false} DecodeKids(n: Node, i: nat, indent: nat, d: string, base: nat)
    requires Lexical(n) && (n.typ == TObject || n.typ == TArray) && i < |Kids(n)|
    requires 0 < base <= |d| && d[base - 1] == '\n'
    requires At(d, base, Lines(Kids(n), |Kids(n)|, indent + 4))
    requires At(d, base + |Lines(Kids(n), |Kids(n)|, indent + 4)|, Tail(n, indent))
    ensures KidPos(Kids(n), i, indent + 4, base) <= |d|
    ensures DecodeChildren(Partial(n, i), d, KidPos(Kids(n), i, indent + 4, base), KidStart(n), Close(n)) ==
      if RefusedFrom(n, i) then Reject
      else Accept(Pruned(n), base + |Lines(Kids(n), |Kids(n)|, indent + 4)| + |Tail(n, indent)|)
    decreases n, 0, |Kids(n)| - i
  {
    hide Lines, Text, Lexical, Followed, Attach, Partial, Decode, DecodeChildren, SkipSpace, At;
    hide Pruned, Refused, RefusedFrom, Symbol, Spaces;
    var ns := Kids(n);
    var s, e := KidPos(ns, i, indent + 4, base), base + |Lines(ns, i + 1, indent + 4)|;
    KidText(ns, i, indent + 4, d, base);
    KidEnd(n, i, indent, d, base);
    ChildIsLexical(n, i);
    RefusedNext(n, i);
    if i + 1 == |ns| && LastSymbol(n) {
      SymbolBeforeBracket(n.arr[i], indent + 4, d, s);
      ChildRefused(Partial(n, i), d, s, KidStart(n), Close(n));
    } else {
      if n.typ == TObject {
        DecodeMember(n.kv[i], indent + 4, d, s);
      } else {
        DecodeElement(n.arr[i], indent + 4, d, s);
      }
      if Refused(ns[i]) {
        ChildRefused(Partial(n, i), d, s, KidStart(n), Close(n));
      } else {
        AttachNext(n, i);
        PartialZero(n);
        ChildrenStep(Partial(n, i), d, s, KidStart(n), Close(n), Pruned(ns[i]), e);
        if i + 1 < |ns| {
          assert SkipSpace(d, e) + 1 == KidPos(ns, i + 1, indent + 4, base);
          DecodeKids(n, i + 1, indent, d, base);
        } else {
          assert SkipSpace(d, e) + 1 == e + |Tail(n, indent)|;
        }
      }
    }
  }

  lemma RefusedNext(n: Node, i: nat)
    requires i < |Kids(n)|
    ensures RefusedFrom(n, i) <==> Refused(Kids(n)[i]) || RefusedFrom(n, i + 1)
    ensures LastSymbol(n) ==> RefusedFrom(n, i) && Kids(n) == n.arr && Symbol(n.arr[|n.arr| - 1])
    ensures i + 1 == |Kids(n)| && !LastSymbol(n) ==> !RefusedFrom(n, i + 1)
  {
    hide Refused, Symbol;
  }

  /** What decoding makes of the pretty-printed text of a tree rooted at an object or an array: nothing if some
      array ends in a boolean or a null; otherwise the tree without its empty array elements, using all of the
      text. */
  lemma DecodeOfFormat(root: Node)
    requires Lexical(root) && root.key == "" && (root.typ == TObject || root.typ == TArray)
    ensures DecodeText(Format(root)) == if Refused(root) then Reject else Accept(Pruned(root), |Format(root)|)
  {
    hide DecodeValue, ValueText, Lines, Pruned, Refused;
    var d := Format(root);
    assert d == ValueText(root, 0);
    FirstChar(root, 0);
    assert d[0..|d|] == d;
    DecodeContainer(root, 0, d, 0);
    assert SkipSpace(d, 0) == 0;
    assert DecodeType("", d, 0) == DecodeValue("", d, 0);
  }

  // ---------------------------------------------------------------- the trees that survive

  lemma {:induction false} PrintableIsKept(n: Node)
    requires Printable(n)
    ensures !Refused(n) && Pruned(n) == n
    decreases n, 1
  {
    hide Lexical, HasContent, Pruned;
    forall i | 0 <= i < |n.kv| ensures !Refused(n.kv[i]) && Pruned(n.kv[i]) == n.kv[i] {
      PrintableIsKept(n.kv[i]);
    }
    forall i | 0 <= i < |n.arr| ensures !Refused(n.arr[i]) && Pruned(n.arr[i]) == n.arr[i] {
      PrintableIsKept(n.arr[i]);
    }
    MembersKept(n.kv, |n.kv|);
    ElementsKept(n.arr, |n.arr|);
    assert n.kv[..|n.kv|] == n.kv && n.arr[..|n.arr|] == n.arr;
    assert Pruned(n) == n by { PrunedIs(n); }
  }

  lemma PrunedIs(n: Node)
    ensures Pruned(n) == n.(kv := PrunedMembers(n.kv, |n.kv|), arr := PrunedElements(n.arr, |n.arr|))
  {
  }

  lemma {:induction false} MembersKept(ns: seq<Node>, i: nat)
    requires i <= |ns| && forall j :: 0 <= j < |ns| ==> Pruned(ns[j]) == ns[j]
    ensures PrunedMembers(ns, i) == ns[..i]
    decreases i
  {
    hide Pruned;
    if i > 0 { MembersKept(ns, i - 1); }
  }

  lemma {:induction false} ElementsKept(ns: seq<Node>, i: nat)
    requires i <= |ns| && forall j :: 0 <= j < |ns| ==> Pruned(ns[j]) == ns[j] && HasContent(ns[j])
    ensures PrunedElements(ns, i) == ns[..i]
    decreases i
  {
    hide Pruned, HasContent;
    if i > 0 { ElementsKept(ns, i - 1); }
  }

  /** A tree that pruning leaves as it is has no empty array element anywhere. */
  lemma {:induction false} KeptIsPrintable(n: Node)
    requires Lexical(n) && !Refused(n) && Pruned(n) == n
    ensures Printable(n)
    decreases n, 1
  {
    hide HasContent, Symbol;
    PrunedIs(n);
    hide Pruned;
    forall i | 0 <= i < |n.kv| ensures Printable(n.kv[i]) {
      MemberAt(n.kv, |n.kv|, i);
      ChildIsLexicalAnywhere(n);
      KeptIsPrintable(n.kv[i]);
    }
    forall i | 0 <= i < |n.arr| ensures HasContent(n.arr[i]) && Printable(n.arr[i]) {
      ElementAtSamePlace(n.arr, |n.arr|, i);
      ChildIsLexicalAnywhere(n);
      KeptIsPrintable(n.arr[i]);
    }
  }

  lemma ChildIsLexicalAnywhere(n: Node)
    requires Lexical(n)
    ensures forall i :: 0 <= i < |n.kv| ==> Lexical(n.kv[i])
    ensures forall i :: 0 <= i < |n.arr| ==> Lexical(n.arr[i])
  {
  }

  lemma {:induction false} MemberAt(ns: seq<Node>, k: nat, i: nat)
    requires i < k <= |ns|
    ensures PrunedMembers(ns, k)[i] == Pruned(ns[i])
    decreases k
  {
    hide Pruned;
    if i < k - 1 { MemberAt(ns, k - 1, i); }
  }

  /** If none of the first `k` elements was dropped, each is in its place. */
  lemma {:induction false} ElementAtSamePlace(ns: seq<Node>, k: nat, i: nat)
    requires i < k <= |ns| && |PrunedElements(ns, k)| == k
    ensures PrunedElements(ns, k)[i] == Pruned(ns[i]) && HasContent(Pruned(ns[i]))
    decreases k
  {
    hide Pruned, HasContent;
    if i < k - 1 { ElementAtSamePlace(ns, k - 1, i); }
  }

  /** Decoding the pretty-printed text gives the tree back, using all of the text, exactly for the trees without
      empty array elements and without a boolean or null at the end of an array. */
  lemma DecodeUndoesFormatIff(root: Node)
    requires Lexical(root) && root.key == "" && (root.typ == TObject || root.typ == TArray)
    ensures DecodeText(Format(root)) == Accept(root, |Format(root)|) <==> Printable(root)
  {
    DecodeOfFormat(root);
    hide Lexical, Refused, Pruned, Printable, DecodeText, Format;
    if Printable(root) {
      PrintableIsKept(root);
    } else if !Refused(root) && Pruned(root) == root {
      KeptIsPrintable(root);
    }
  }

  const LONE_TRUE := Node(TArray, "", "", [], [Node(TBoolean, "", "true", [], [])])

  /** For one, the array that holds only `true` is printed but not read back. */
  lemma LoneTrueIsRefused()
    ensures Lexical(LONE_TRUE) && !Printable(LONE_TRUE) && DecodeText(Format(LONE_TRUE)) == Reject
  {
    DecodeOfFormat(LONE_TRUE);
    hide DecodeText, Format;
  }
}
