/** JSON texts in any layout: every gap between tokens, either quote, members in any order. */
module JsonLayout {
  import opened Buffers
  import opened Json
  import opened JsonProofs

  /** A value as it is written. */
  datatype Layout =
    | LString(quote: char, text: string)
    | LNumber(negative: bool, whole: string, fraction: string)
    | LTrue
    | LFalse
    | LNull
    | LObject(members: seq<Part>, gap: string)
    | LArray(elements: seq<Part>, gap: string)

  /** A child with the gaps around it. An element of an array has no name. */
  datatype Part = Part(before: string, name: Name, value: Layout, behind: string)

  datatype Name = NoName | Named(quote: char, key: string, colon: string, after: string)

  predicate Gap(s: string) { forall i :: 0 <= i < |s| ==> s[i] == ' ' || s[i] == '\t' || s[i] == '\r' || s[i] == '\n' }

  predicate Digits(s: string) { s != "" && forall i :: 0 <= i < |s| ==> '0' <= s[i] <= '9' }

  predicate Quote(c: char) { c == '"' || c == '\'' }

  /** Raw text that ends at its closing quote. */
  predicate Closed(quote: char, s: string) {
    && (forall i :: 0 <= i < |s| && s[i] == quote ==> i > 0 && s[i - 1] == '\\')
    && (s != "" ==> s[|s| - 1] != '\\')
  }

  function Parts(l: Layout): seq<Part> {
    match l
    case LObject(ms, _) => ms
    case LArray(es, _) => es
    case _ => []
  }

  predicate Container(l: Layout) { l.LObject? || l.LArray? }

  predicate Symbolic(l: Layout) { l.LTrue? || l.LFalse? || l.LNull? }

  predicate NameOk(n: Name) {
    n.Named? ==> Quote(n.quote) && n.key != "" && n.quote !in n.key && Gap(n.colon) && Gap(n.after)
  }

  /** A layout whose tokens are what the grammar asks for. */
  predicate Written(l: Layout)
    decreases l
  {
    match l
    case LString(quote, text) => Quote(quote) && Closed(quote, text)
    case LNumber(_, whole, fraction) => Digits(whole) && (fraction == "" || Digits(fraction))
    case LObject(ms, gap) => Gap(gap) && forall i :: 0 <= i < |ms| ==> PartOk(ms[i]) && ms[i].name.Named?
    case LArray(es, gap) => Gap(gap) && forall i :: 0 <= i < |es| ==> PartOk(es[i]) && es[i].name.NoName?
    case _ => true
  }

  predicate PartOk(p: Part)
    decreases p
  {
    Gap(p.before) && Gap(p.behind) && NameOk(p.name) && Written(p.value)
  }

  // ---------------------------------------------------------------- the text

  function NumberOf(negative: bool, whole: string, fraction: string): string {
    (if negative then "-" else "") + whole + (if fraction == "" then "" else "." + fraction)
  }

  function NameText(n: Name): string {
    match n
    case NoName => ""
    case Named(quote, key, colon, after) => [quote] + (key + [quote]) + (colon + (":" + after))
  }

  function TextOf(l: Layout): string
    decreases l, 1
  {
    match l
    case LString(quote, text) => [quote] + text + [quote]
    case LNumber(negative, whole, fraction) => NumberOf(negative, whole, fraction)
    case LTrue => "true"
    case LFalse => "false"
    case LNull => "null"
    case LObject(ms, gap) => "{" + From(ms, 0) + (gap + "}")
    case LArray(es, gap) => "[" + From(es, 0) + (gap + "]")
  }

  function PartText(p: Part): string
    decreases p, 0
  {
    p.before + (NameText(p.name) + (TextOf(p.value) + p.behind))
  }

  /** The parts from `i` on, with commas between them. */
  function From(ps: seq<Part>, i: nat): string
    requires i <= |ps|
    decreases ps, 0, |ps| - i
  {
    if i == |ps| then "" else PartText(ps[i]) + ((if i + 1 < |ps| then "," else "") + From(ps, i + 1))
  }

  // ---------------------------------------------------------------- the tree

  function KeyOf(n: Name): string { if n.Named? then n.key else "" }

  function TypeOf(l: Layout): Type {
    match l
    case LString(_, _) => TString
    case LNumber(_, _, fraction) => if fraction == "" then TInteger else TFloat
    case LTrue => TBoolean
    case LFalse => TBoolean
    case LNull => TNull
    case LObject(_, _) => TObject
    case LArray(_, _) => TArray
  }

  /** The node that a layout stands for under a key: its children are attached in the order they are written. */
  function Tree(l: Layout, key: string): Node
    decreases l, 1
  {
    match l
    case LString(_, text) => Node(TString, key, text, [], [])
    case LNumber(negative, whole, fraction) => Node(TypeOf(l), key, NumberOf(negative, whole, fraction), [], [])
    case LTrue => Node(TBoolean, key, "true", [], [])
    case LFalse => Node(TBoolean, key, "false", [], [])
    case LNull => Node(TNull, key, "null", [], [])
    case LObject(ms, _) => Collected(BLANK.(key := key), ms, |ms|)
    case LArray(es, _) => Collected(BLANK.(key := key, typ := TArray), es, |es|)
  }

  /** The node with its first `i` children. */
  function Collected(node: Node, ps: seq<Part>, i: nat): Node
    requires i <= |ps|
    decreases ps, 0, i
  {
    if i == 0 then node else Attach(Collected(node, ps, i - 1), PartTree(ps[i - 1]))
  }

  function PartTree(p: Part): Node
    decreases p, 0
  {
    Tree(p.value, KeyOf(p.name))
  }

  /** An array somewhere ends in true, false or null. */
  predicate Unread(l: Layout)
    decreases l, 1
  {
    match l
    case LObject(ms, _) => UnreadFrom(ms, 0)
    case LArray(es, _) => (es != [] && Symbolic(es[|es| - 1].value)) || UnreadFrom(es, 0)
    case _ => false
  }

  predicate UnreadFrom(ps: seq<Part>, i: nat)
    requires i <= |ps|
    decreases ps, 0, |ps| - i
  {
    i < |ps| && (UnreadPart(ps[i]) || UnreadFrom(ps, i + 1))
  }

  predicate UnreadPart(p: Part)
    decreases p, 0
  {
    Unread(p.value)
  }

  // ---------------------------------------------------------------- scanning

  lemma {:induction false} SkipGap(d: string, p: nat, g: string)
    requires Gap(g) && At(d, p, g) && p + |g| < |d| && !IsSpace(d[p + |g|])
    ensures SkipSpace(d, p) == p + |g|
    decreases |g|
  {
    if g != "" {
      assert g == [g[0]] + g[1..];
      Split(d, p, [g[0]], g[1..]);
      ElementAt(d, p, g, 0);
      SkipGap(d, p + 1, g[1..]);
    }
  }

  lemma {:induction false} FindQuote(d: string, p: nat, key: string, quote: char)
    requires quote !in key && At(d, p, key + [quote])
    ensures Find(quote, d, p) == p + |key|
    decreases |key|
  {
    ElementAt(d, p, key + [quote], 0);
    if key != "" {
      assert key + [quote] == [key[0]] + (key[1..] + [quote]);
      Split(d, p, [key[0]], key[1..] + [quote]);
      FindQuote(d, p + 1, key[1..], quote);
    }
  }

  lemma {:induction false} FindClosed(d: string, p: nat, quote: char, s: string, i: nat)
    requires i <= |s| && Closed(quote, s) && quote != '\\' && At(d, p, [quote] + s + [quote])
    ensures FindUnescaped(quote, d, p + 1 + i) == p + 1 + |s|
    decreases |s| - i
  {
    var t := [quote] + s + [quote];
    ElementAt(d, p, t, i);
    ElementAt(d, p, t, 1 + i);
    if i < |s| { FindClosed(d, p, quote, s, i + 1); }
  }

  // ---------------------------------------------------------------- scalars

  lemma ReadString(key: string, d: string, p: nat, quote: char, s: string)
    requires Quote(quote) && Closed(quote, s) && At(d, p, [quote] + s + [quote])
    ensures p < |d| && DecodeValue(key, d, p) == Accept(Node(TString, key, s, [], []), p + |s| + 2)
  {
    ElementAt(d, p, [quote] + s + [quote], 0);
    FindClosed(d, p, quote, s, 0);
    Split(d, p, [quote] + s, [quote]);
    Split(d, p, [quote], s);
    hide DecodeChildren, ParseNumber, FindUnescaped, Closed;
  }

  lemma NumberShape(negative: bool, whole: string, fraction: string)
    requires Digits(whole) && (fraction == "" || Digits(fraction))
    ensures var v := NumberOf(negative, whole, fraction);
            && v != "" && (forall j :: 0 <= j < |v| ==> IsNumberChar(v[j]))
            && NumberText(v) && ('.' in v <==> fraction != "")
            && (if negative then |v| >= 2 && v[0] == '-' && IsDigit(v[1]) else IsDigit(v[0]))
  {
    var v, k := NumberOf(negative, whole, fraction), if negative then 1 else 0;
    var n := k + |whole|;
    assert forall j :: k <= j < n ==> v[j] == whole[j - k];
    assert forall j :: n < j < |v| ==> v[j] == fraction[j - n - 1];
    assert fraction != "" ==> v[n] == '.';
    assert |v| == if fraction == "" then n else n + 1 + |fraction|;
  }

  lemma ReadNumber(key: string, d: string, p: nat, negative: bool, whole: string, fraction: string)
    requires Digits(whole) && (fraction == "" || Digits(fraction))
    requires var v := NumberOf(negative, whole, fraction);
             At(d, p, v) && p + |v| < |d| && !IsNumberChar(d[p + |v|])
    ensures var v := NumberOf(negative, whole, fraction);
            DecodeValue(key, d, p)
              == Accept(Node(if fraction == "" then TInteger else TFloat, key, v, [], []), p + |v|)
  {
    NumberShape(negative, whole, fraction);
    hide NumberOf, Digits, DecodeValue, ParseNumber, At, IsNumberChar, NumberText;
    var v := NumberOf(negative, whole, fraction);
    NumberParsed(key, d, p, v);
    ElementAt(d, p, v, 0);
    if negative { ElementAt(d, p, v, 1); }
    NumberChosen(key, d, p);
  }

  lemma NumberParsed(key: string, d: string, p: nat, v: string)
    requires v != "" && NumberText(v) && forall j :: 0 <= j < |v| ==> IsNumberChar(v[j])
    requires At(d, p, v) && p + |v| < |d| && !IsNumberChar(d[p + |v|])
    ensures ParseNumber(key, d, p) == Accept(Node(if '.' in v then TFloat else TInteger, key, v, [], []), p + |v|)
  {
    NumberEnds(d, p, v, 1);
    hide NumberText, SkipNumber, IsNumberChar;
  }

  lemma NumberChosen(key: string, d: string, p: nat)
    requires p + 1 < |d| && (IsDigit(d[p]) || (d[p] == '-' && IsDigit(d[p + 1])))
    ensures DecodeValue(key, d, p) == ParseNumber(key, d, p)
  {
    hide ParseNumber, ParseString, ParseSymbol, DecodeChildren, At;
  }

  /** A symbol must have a comma or a closing brace behind it. */
  lemma ReadSymbol(l: Layout, key: string, d: string, p: nat)
    requires Symbolic(l) && At(d, p, TextOf(l)) && p < |d|
    requires SkipSpace(d, p + |TextOf(l)|) < |d|
    ensures var e := SkipSpace(d, p + |TextOf(l)|);
            DecodeValue(key, d, p) == if d[e] == ',' || d[e] == '}' then Accept(Tree(l, key), e) else Reject
  {
    ElementAt(d, p, TextOf(l), 0);
    if !l.LTrue? { NotAnother(d, p, TextOf(l), "true"); }
    if l.LNull? { NotAnother(d, p, TextOf(l), "false"); }
    hide DecodeChildren, ParseString, ParseNumber, SkipSpace, At;
  }

  // ---------------------------------------------------------------- parts

  /** What stands behind a child: white space, and a comma or a closing bracket. */
  predicate Ends(d: string, q: nat) {
    && q < |d| && !IsNumberChar(d[q]) && SkipSpace(d, q) < |d|
    && (d[SkipSpace(d, q)] == ',' || d[SkipSpace(d, q)] == '}' || d[SkipSpace(d, q)] == ']')
  }

  predicate Cut(l: Layout, d: string, q: nat)
    requires q <= |d|
  {
    Symbolic(l) && SkipSpace(d, q) < |d| && d[SkipSpace(d, q)] == ']'
  }

  /** What reading a value up to `q` gives. */
  predicate ReadsAs(r: Result, l: Layout, key: string, d: string, q: nat)
    requires q <= |d|
  {
    if Unread(l) || Cut(l, d, q) then r == Reject else Gives(r, Tree(l, key), d, q)
  }

  lemma {:induction false} ReadValue(l: Layout, key: string, d: string, p: nat)
    requires Written(l) && At(d, p, TextOf(l))
    requires Container(l) || l.LString? || Ends(d, p + |TextOf(l)|)
    ensures p < |d| && p + |TextOf(l)| <= |d|
    ensures ReadsAs(DecodeValue(key, d, p), l, key, d, p + |TextOf(l)|)
    decreases l, 1, 0
  {
    TextStarts(l);
    Bounds(d, p, TextOf(l));
    if Container(l) {
      hide At, Written, TextOf, Tree, Unread, DecodeValue;
      ReadContainer(l, key, d, p);
    } else {
      ReadScalar(l, key, d, p);
      hide ReadsAs, Written, TextOf, DecodeValue;
    }
  }

  lemma TextStarts(l: Layout)
    requires Written(l)
    ensures TextOf(l) != "" && !IsSpace(TextOf(l)[0])
  {
    hide From;
    if l.LNumber? { NumberShape(l.negative, l.whole, l.fraction); }
    hide NumberOf;
  }

  lemma ReadScalar(l: Layout, key: string, d: string, p: nat)
    requires Written(l) && !Container(l) && At(d, p, TextOf(l)) && p < |d| && p + |TextOf(l)| <= |d|
    requires l.LString? || Ends(d, p + |TextOf(l)|)
    ensures ReadsAs(DecodeValue(key, d, p), l, key, d, p + |TextOf(l)|)
  {
    hide DecodeValue, At, SkipSpace, Closed, Digits, NumberOf, IsNumberChar;
    if l.LString? {
      ReadString(key, d, p, l.quote, l.text);
    } else if l.LNumber? {
      ReadNumber(key, d, p, l.negative, l.whole, l.fraction);
    } else {
      ReadSymbol(l, key, d, p);
      SkipTwice(d, p + |TextOf(l)|);
    }
  }

  /** From the gap in front of an element to its value. */
  lemma ElementStart(d: string, p: nat, before: string, v: nat)
    requires Gap(before) && At(d, p, before) && v == p + |before| < |d| && !IsSpace(d[v])
    ensures p <= |d| && Decode(d, p, AtType) == DecodeValue("", d, v)
  {
    SkipGap(d, p, before);
    hide DecodeValue, SkipSpace;
  }

  /** Where the key of a name at `k` ends, and its colon. */
  function KeyEnd(k: nat, n: Name): nat { k + 1 + |KeyOf(n)| }

  function ColonAt(k: nat, n: Name): nat
    requires n.Named?
  {
    KeyEnd(k, n) + 1 + |n.colon|
  }

  lemma NamePlaces(d: string, k: nat, n: Name)
    requires n.Named? && At(d, k, NameText(n))
    ensures At(d, k + 1, n.key + [n.quote]) && At(d, KeyEnd(k, n) + 1, n.colon) && At(d, ColonAt(k, n) + 1, n.after)
    ensures k < KeyEnd(k, n) < ColonAt(k, n) < |d| && d[k + 1..KeyEnd(k, n)] == n.key
    ensures d[k] == n.quote && d[KeyEnd(k, n)] == n.quote && d[ColonAt(k, n)] == ':'
    ensures k + |NameText(n)| == ColonAt(k, n) + 1 + |n.after|
  {
    var e, c := KeyEnd(k, n), ColonAt(k, n);
    assert NameText(n) == [n.quote] + (n.key + [n.quote] + (n.colon + (":" + n.after)));
    Split(d, k, [n.quote], n.key + [n.quote] + (n.colon + (":" + n.after)));
    Split(d, k + 1, n.key + [n.quote], n.colon + (":" + n.after));
    Split(d, k + 1, n.key, [n.quote]);
    Split(d, e + 1, n.colon, ":" + n.after);
    Split(d, c, ":", n.after);
    ElementAt(d, k, [n.quote], 0);
    ElementAt(d, e, [n.quote], 0);
    ElementAt(d, c, ":", 0);
  }

  /** From the gap in front of a member to its value: name, colon and the gaps around it. */
  lemma MemberStart(d: string, p: nat, before: string, n: Name, v: nat)
    requires Gap(before) && n.Named? && NameOk(n) && At(d, p, before) && At(d, p + |before|, NameText(n))
    requires v == p + |before| + |NameText(n)| < |d| && !IsSpace(d[v])
    ensures p <= |d| && Decode(d, p, AtKey) == DecodeValue(n.key, d, v)
  {
    hide At, NameText, Gap, Decode, DecodeValue, Find, IsSpace, SkipSpace, KeyEnd, ColonAt, Quote, IsQuote;
    var k := p + |before|;
    NamePlaces(d, k, n);
    NameLengths(k, n);
    QuoteIsNoSpace(n.quote);
    ColonIsNoSpace();
    SkipGap(d, p, before);
    KeyEnds(d, k, n);
    ColonPath(d, KeyEnd(k, n), ColonAt(k, n), v, n.colon, n.after);
    KeyThenValue(d, p, k, KeyEnd(k, n), n.key, ColonAt(k, n), v);
  }

  lemma ColonPath(d: string, e: nat, c: nat, v: nat, colon: string, after: string)
    requires Gap(colon) && Gap(after) && At(d, e + 1, colon) && c == e + 1 + |colon| < |d| && !IsSpace(d[c])
    requires At(d, c + 1, after) && v == c + 1 + |after| < |d| && !IsSpace(d[v])
    ensures SkipSpace(d, e + 1) == c && SkipSpace(d, c + 1) == v
  {
    hide At, Gap, IsSpace, SkipSpace;
    SkipGap(d, e + 1, colon);
    SkipGap(d, c + 1, after);
  }

  lemma NameLengths(k: nat, n: Name)
    requires n.Named?
    ensures ColonAt(k, n) == KeyEnd(k, n) + 1 + |n.colon|
  {
  }

  lemma KeyEnds(d: string, k: nat, n: Name)
    requires n.Named? && n.quote !in n.key && At(d, k + 1, n.key + [n.quote])
    ensures Find(n.quote, d, k + 1) == KeyEnd(k, n)
  {
    hide At, Find;
    FindQuote(d, k + 1, n.key, n.quote);
  }

  lemma QuoteIsNoSpace(c: char)
    requires Quote(c)
    ensures !IsSpace(c) && IsQuote(c)
  {
  }

  lemma ColonIsNoSpace()
    ensures !IsSpace(':')
  {
  }

  lemma KeyThenValue(d: string, p: nat, k: nat, e: nat, key: string, c: nat, v: nat)
    requires p <= k < e < c < v < |d| && SkipSpace(d, p) == k && IsQuote(d[k]) && Find(d[k], d, k + 1) == e
    requires d[k + 1..e] == key != "" && SkipSpace(d, e + 1) == c && d[c] == ':' && SkipSpace(d, c + 1) == v
    ensures Decode(d, p, AtKey) == DecodeValue(key, d, v)
  {
    hide DecodeValue, SkipSpace, Find;
    assert DecodeType(key, d, e + 1) == DecodeValue(key, d, v);
  }

  function StartOf(n: Name): Start { if n.Named? then AtKey else AtType }

  /** A part without the gap behind it. */
  function Front(part: Part): string { part.before + (NameText(part.name) + TextOf(part.value)) }

  /** Where the value of a part ends when the part stands at `p`. */
  function ValueEnd(part: Part, p: nat): nat { p + |Front(part)| }

  predicate PartReadsAs(r: Result, part: Part, d: string, q: nat)
    requires q <= |d|
  {
    if UnreadPart(part) || Cut(part.value, d, q) then r == Reject else Gives(r, PartTree(part), d, q)
  }

  lemma {:induction false} ReadPart(part: Part, d: string, p: nat)
    requires PartOk(part) && At(d, p, PartText(part)) && Ends(d, ValueEnd(part, p))
    ensures p <= |d| && PartReadsAs(Decode(d, p, StartOf(part.name)), part, d, ValueEnd(part, p))
    decreases part, 0, 0
  {
    hide At, TextOf, NameText, PartText, Decode, DecodeValue, Written, Ends, Tree, Unread, Gap, NameOk, IsSpace;
    hide ValueEnd, Cut;
    var v := p + |part.before| + |NameText(part.name)|;
    PartPieces(part, d, p);
    ReadValue(part.value, KeyOf(part.name), d, v);
    if part.name.Named? {
      MemberStart(d, p, part.before, part.name, v);
    } else {
      NoNameText(part.name);
      ElementStart(d, p, part.before, v);
    }
  }

  lemma PartPieces(part: Part, d: string, p: nat)
    requires PartOk(part) && At(d, p, PartText(part))
    ensures At(d, p, part.before) && At(d, p + |part.before|, NameText(part.name))
    ensures var v := p + |part.before| + |NameText(part.name)|;
            At(d, v, TextOf(part.value)) && ValueEnd(part, p) == v + |TextOf(part.value)| && v < |d| && !IsSpace(d[v])
  {
    var rest := TextOf(part.value) + part.behind;
    var v := p + |part.before| + |NameText(part.name)|;
    assert PartText(part) == part.before + (NameText(part.name) + rest);
    TextStarts(part.value);
    hide At, TextOf, NameText, PartText, IsSpace;
    Split(d, p, part.before, NameText(part.name) + rest);
    Split(d, p + |part.before|, NameText(part.name), rest);
    Split(d, v, TextOf(part.value), part.behind);
    Bounds(d, v, TextOf(part.value));
    ElementAt(d, v, TextOf(part.value), 0);
  }

  lemma NoNameText(n: Name)
    requires n.NoName?
    ensures NameText(n) == ""
  {
  }

  // ---------------------------------------------------------------- children

  function Closing(l: Layout): char { if l.LObject? then '}' else ']' }

  function GapOf(l: Layout): string
    requires Container(l)
  {
    match l case LObject(_, gap) => gap case LArray(_, gap) => gap
  }

  function Empty(l: Layout, key: string): Node { BLANK.(key := key, typ := TypeOf(l)) }

  function PartStart(l: Layout): Start { if l.LObject? then AtKey else AtType }

  /** The text from part `i` to the closing bracket. */
  function Ending(l: Layout, i: nat): string
    requires Container(l) && i <= |Parts(l)|
  {
    From(Parts(l), i) + (GapOf(l) + [Closing(l)])
  }

  /** What stands behind part `i` up to the closing bracket or the next part. */
  function Behind(l: Layout, i: nat): string
    requires Container(l) && i < |Parts(l)|
  {
    Parts(l)[i].behind + (if i + 1 < |Parts(l)| then "" else GapOf(l))
  }

  function Separating(l: Layout, i: nat): char
    requires Container(l) && i < |Parts(l)|
  {
    if i + 1 < |Parts(l)| then ',' else Closing(l)
  }

  /** Where the separator behind part `i` stands. */
  function SeparatorAt(l: Layout, i: nat, p: nat): nat
    requires Container(l) && i < |Parts(l)|
  {
    ValueEnd(Parts(l)[i], p) + |Behind(l, i)|
  }

  lemma EndingInner(l: Layout, i: nat)
    requires Container(l) && i + 1 < |Parts(l)|
    ensures Ending(l, i) == PartText(Parts(l)[i]) + ("," + Ending(l, i + 1))
  {
    FromStep(Parts(l), i);
    hide From, PartText;
  }

  lemma EndingLast(l: Layout, i: nat)
    requires Container(l) && i + 1 == |Parts(l)|
    ensures Ending(l, i) == PartText(Parts(l)[i]) + (GapOf(l) + [Closing(l)])
  {
    FromStep(Parts(l), i);
    NothingFrom(Parts(l));
    hide From, PartText;
  }

  lemma BehindIs(l: Layout, i: nat)
    requires Container(l) && i < |Parts(l)|
    ensures Behind(l, i) == if i + 1 < |Parts(l)| then Parts(l)[i].behind else Parts(l)[i].behind + GapOf(l)
  {
    assert Parts(l)[i].behind + "" == Parts(l)[i].behind;
  }

  lemma CommaBehind(d: string, p: nat, t: string, rest: string)
    requires At(d, p, t + ("," + rest))
    ensures At(d, p, t) && p + |t| < |d| && d[p + |t|] == ',' && At(d, p + |t| + 1, rest)
  {
    Split(d, p, t, "," + rest);
    hide At;
    Split(d, p + |t|, ",", rest);
    ElementAt(d, p + |t|, ",", 0);
    Bounds(d, p + |t|, ",");
  }

  lemma BracketBehind(d: string, p: nat, t: string, gap: string, close: char)
    requires At(d, p, t + (gap + [close]))
    ensures At(d, p, t) && At(d, p + |t|, gap) && p + |t| + |gap| < |d| && d[p + |t| + |gap|] == close
  {
    Split(d, p, t, gap + [close]);
    hide At;
    Split(d, p + |t|, gap, [close]);
    ElementAt(d, p + |t| + |gap|, [close], 0);
    Bounds(d, p + |t| + |gap|, [close]);
  }

  lemma Joined(d: string, p: nat, a: string, b: string)
    requires At(d, p, a) && At(d, p + |a|, b)
    ensures At(d, p, a + b)
  {
    assert d[p..p + |a| + |b|] == d[p..p + |a|] + d[p + |a|..p + |a| + |b|];
  }

  /** The text of a part with another behind it, and where that starts. */
  lemma InnerPart(l: Layout, i: nat, d: string, p: nat)
    requires Container(l) && i + 1 < |Parts(l)| && At(d, p, Ending(l, i))
    ensures At(d, p, PartText(Parts(l)[i])) && At(d, ValueEnd(Parts(l)[i], p), Behind(l, i))
    ensures SeparatorAt(l, i, p) < |d| && d[SeparatorAt(l, i, p)] == ','
    ensures At(d, SeparatorAt(l, i, p) + 1, Ending(l, i + 1))
    ensures p + |Ending(l, i)| == SeparatorAt(l, i, p) + 1 + |Ending(l, i + 1)|
  {
    hide At, PartText, Front, Ending, Behind, Parts;
    var part := Parts(l)[i];
    BehindIs(l, i);
    EndingInner(l, i);
    PartInTwo(part);
    CommaBehind(d, p, PartText(part), Ending(l, i + 1));
    Split(d, p, Front(part), part.behind);
  }

  /** The text of the last part. */
  lemma LastPart(l: Layout, i: nat, d: string, p: nat)
    requires Container(l) && i + 1 == |Parts(l)| && At(d, p, Ending(l, i))
    ensures At(d, p, PartText(Parts(l)[i])) && At(d, ValueEnd(Parts(l)[i], p), Behind(l, i))
    ensures SeparatorAt(l, i, p) < |d| && d[SeparatorAt(l, i, p)] == Closing(l)
    ensures p + |Ending(l, i)| == SeparatorAt(l, i, p) + 1
  {
    hide At, PartText, Front, Ending, Behind, Parts, GapOf, Closing;
    var part := Parts(l)[i];
    EndingLast(l, i);
    PartInTwo(part);
    BracketBehind(d, p, PartText(part), GapOf(l), Closing(l));
    Split(d, p, Front(part), part.behind);
    LastLength(l, i);
    BehindIs(l, i);
    Joined(d, ValueEnd(part, p), part.behind, GapOf(l));
  }

  lemma LastLength(l: Layout, i: nat)
    requires Container(l) && i + 1 == |Parts(l)|
    ensures |Ending(l, i)| == |Front(Parts(l)[i])| + |Behind(l, i)| + 1
    ensures |PartText(Parts(l)[i])| + |GapOf(l)| == |Front(Parts(l)[i])| + |Behind(l, i)|
  {
    EndingLast(l, i);
    PartInTwo(Parts(l)[i]);
    hide Ending, Front, PartText, Closing;
  }

  lemma FromStep(ps: seq<Part>, i: nat)
    requires i < |ps|
    ensures From(ps, i) == PartText(ps[i]) + ((if i + 1 < |ps| then "," else "") + From(ps, i + 1))
  {
  }

  lemma NothingFrom(ps: seq<Part>)
    ensures From(ps, |ps|) == ""
  {
  }

  lemma PartInTwo(part: Part)
    ensures PartText(part) == Front(part) + part.behind
  {
    hide TextOf, NameText;
  }

  lemma SeparatorEnds(l: Layout, i: nat, d: string, q: nat)
    requires Container(l) && i < |Parts(l)| && Gap(Behind(l, i)) && At(d, q, Behind(l, i))
    requires q + |Behind(l, i)| < |d| && d[q + |Behind(l, i)|] == Separating(l, i)
    ensures SkipSpace(d, q) == q + |Behind(l, i)| && Ends(d, q)
    ensures Cut(Parts(l)[i].value, d, q) <==> i + 1 == |Parts(l)| && l.LArray? && Symbolic(Parts(l)[i].value)
  {
    hide At;
    SkipGap(d, q, Behind(l, i));
    if Behind(l, i) != "" { ElementAt(d, q, Behind(l, i), 0); }
    hide SkipSpace, Behind;
  }

  lemma PartIsOk(l: Layout, i: nat)
    requires Written(l) && Container(l) && i < |Parts(l)|
    ensures PartOk(Parts(l)[i]) && StartOf(Parts(l)[i].name) == PartStart(l) && Gap(Behind(l, i))
  {
    hide NameOk;
  }

  /** Some array from part `i` on ends in a symbol, or this one does. */
  predicate UnreadRest(l: Layout, i: nat)
    requires Container(l) && i <= |Parts(l)|
  {
    UnreadFrom(Parts(l), i) || (l.LArray? && l.elements != [] && Symbolic(l.elements[|l.elements| - 1].value))
  }

  /** Part `i` in its place, and what the parser meets behind it. */
  lemma PartPlaces(l: Layout, i: nat, d: string, p: nat)
    requires Written(l) && Container(l) && i < |Parts(l)| && At(d, p, Ending(l, i))
    ensures p + |Ending(l, i)| <= |d| && ValueEnd(Parts(l)[i], p) <= SeparatorAt(l, i, p) < |d|
    ensures PartOk(Parts(l)[i]) && StartOf(Parts(l)[i].name) == PartStart(l) && At(d, p, PartText(Parts(l)[i]))
    ensures d[SeparatorAt(l, i, p)] == Separating(l, i)
    ensures SkipSpace(d, ValueEnd(Parts(l)[i], p)) == SeparatorAt(l, i, p) && Ends(d, ValueEnd(Parts(l)[i], p))
    ensures Cut(Parts(l)[i].value, d, ValueEnd(Parts(l)[i], p))
       <==> i + 1 == |Parts(l)| && l.LArray? && Symbolic(Parts(l)[i].value)
  {
    Bounds(d, p, Ending(l, i));
    PartIsOk(l, i);
    hide At, Written, PartOk, Gap, PartText, Ending, Behind, Ends, SkipSpace, ValueEnd, Cut, Symbolic;
    if i + 1 < |Parts(l)| { InnerPart(l, i, d, p); } else { LastPart(l, i, d, p); }
    SeparatorEnds(l, i, d, ValueEnd(Parts(l)[i], p));
  }

  /** One turn of the children loop. */
  lemma {:induction false} PartStep(l: Layout, key: string, i: nat, d: string, p: nat)
    requires Written(l) && Container(l) && i < |Parts(l)| && At(d, p, Ending(l, i))
    ensures p <= |d| && SeparatorAt(l, i, p) < |d|
    ensures DecodeChildren(Collected(Empty(l, key), Parts(l), i), d, p, PartStart(l), Closing(l))
         == AfterPart(l, key, i, d, p)
    decreases l, 0, 0
  {
    hide At, Written, PartOk, Gap, PartText, Ending, Behind, Empty, Collected, DecodeChildren, Decode, Ends, SkipSpace;
    hide Attach, ValueEnd, UnreadPart, PartTree, Cut, Symbolic, SeparatorAt, StartOf, AfterPart, PartStart, Closing;
    hide Separating;
    PartPlaces(l, i, d, p);
    ReadPart(Parts(l)[i], d, p);
    if UnreadAt(l, i) {
      ChildRefused(Collected(Empty(l, key), Parts(l), i), d, p, PartStart(l), Closing(l));
      NotAfter(l, key, i, d, p);
    } else {
      Turn(l, key, i, d, p);
    }
  }

  /** What the loop goes on with behind part `i`. */
  function AfterPart(l: Layout, key: string, i: nat, d: string, p: nat): Result
    requires Container(l) && i < |Parts(l)| && SeparatorAt(l, i, p) < |d|
  {
    var node := Collected(Empty(l, key), Parts(l), i + 1);
    if UnreadAt(l, i) then Reject
    else if i + 1 < |Parts(l)| then DecodeChildren(node, d, SeparatorAt(l, i, p) + 1, PartStart(l), Closing(l))
    else Accept(node, SeparatorAt(l, i, p) + 1)
  }

  lemma NotAfter(l: Layout, key: string, i: nat, d: string, p: nat)
    requires Container(l) && i < |Parts(l)| && SeparatorAt(l, i, p) < |d| && UnreadAt(l, i)
    ensures AfterPart(l, key, i, d, p) == Reject
  {
    hide UnreadAt, SeparatorAt, Collected, DecodeChildren;
  }

  lemma Turn(l: Layout, key: string, i: nat, d: string, p: nat)
    requires Container(l) && i < |Parts(l)| && !UnreadAt(l, i) && ValueEnd(Parts(l)[i], p) <= |d|
    requires p <= |d| && SeparatorAt(l, i, p) < |d| && d[SeparatorAt(l, i, p)] == Separating(l, i)
    requires SkipSpace(d, ValueEnd(Parts(l)[i], p)) == SeparatorAt(l, i, p)
    requires Gives(Decode(d, p, PartStart(l)), PartTree(Parts(l)[i]), d, ValueEnd(Parts(l)[i], p))
    ensures DecodeChildren(Collected(Empty(l, key), Parts(l), i), d, p, PartStart(l), Closing(l))
         == AfterPart(l, key, i, d, p)
  {
    hide ValueEnd, SeparatorAt, Decode, DecodeChildren, Collected, Attach, PartTree, UnreadAt, SkipSpace, Gives, Empty;
    hide PartStart, Parts, Container, Closing;
    var node, child := Collected(Empty(l, key), Parts(l), i), PartTree(Parts(l)[i]);
    var q, e := ValueEnd(Parts(l)[i], p), SeparatorAt(l, i, p);
    CollectedNext(Empty(l, key), Parts(l), i);
    ClosingIsNoComma(l);
    if i + 1 < |Parts(l)| {
      TurnAtComma(node, d, p, PartStart(l), Closing(l), child, q, e);
    } else {
      TurnAtBracket(node, d, p, PartStart(l), Closing(l), child, q, e);
    }
  }

  lemma CollectedNext(node: Node, ps: seq<Part>, i: nat)
    requires i < |ps|
    ensures Collected(node, ps, i + 1) == Attach(Collected(node, ps, i), PartTree(ps[i]))
  {
    hide Attach, PartTree;
  }

  lemma ClosingIsNoComma(l: Layout)
    ensures Closing(l) != ','
  {
  }

  lemma TurnAtComma(node: Node, d: string, p: nat, start: Start, symbol: char, child: Node, q: nat, e: nat)
    requires p <= |d| && q <= |d| && Gives(Decode(d, p, start), child, d, q)
    requires SkipSpace(d, q) == e < |d| && d[e] == ',' && symbol != ','
    ensures DecodeChildren(node, d, p, start, symbol) == DecodeChildren(Attach(node, child), d, e + 1, start, symbol)
  {
    hide Decode, Attach, SkipSpace;
  }

  lemma TurnAtBracket(node: Node, d: string, p: nat, start: Start, symbol: char, child: Node, q: nat, e: nat)
    requires p <= |d| && q <= |d| && Gives(Decode(d, p, start), child, d, q)
    requires SkipSpace(d, q) == e < |d| && d[e] == symbol
    ensures DecodeChildren(node, d, p, start, symbol) == Accept(Attach(node, child), e + 1)
  {
    hide Decode, Attach, SkipSpace;
  }

  /** Part `i` is not read. */
  predicate UnreadAt(l: Layout, i: nat)
    requires Container(l) && i < |Parts(l)|
  {
    UnreadPart(Parts(l)[i]) || (l.LArray? && i + 1 == |Parts(l)| && Symbolic(Parts(l)[i].value))
  }

  lemma {:induction false} ReadParts(l: Layout, key: string, i: nat, d: string, p: nat)
    requires Written(l) && Container(l) && i < |Parts(l)| && At(d, p, Ending(l, i))
    ensures p + |Ending(l, i)| <= |d|
    ensures DecodeChildren(Collected(Empty(l, key), Parts(l), i), d, p, PartStart(l), Closing(l)) ==
      if UnreadRest(l, i) then Reject
      else Accept(Collected(Empty(l, key), Parts(l), |Parts(l)|), p + |Ending(l, i)|)
    decreases l, 0, |Parts(l)| - i
  {
    hide At, Written, Ending, Behind, Empty, Collected, DecodeChildren, SeparatorAt, UnreadRest, UnreadAt;
    Bounds(d, p, Ending(l, i));
    PartStep(l, key, i, d, p);
    UnreadNext(l, i);
    if i + 1 < |Parts(l)| {
      InnerPart(l, i, d, p);
      ReadParts(l, key, i + 1, d, SeparatorAt(l, i, p) + 1);
    } else {
      LastPart(l, i, d, p);
    }
  }

  lemma UnreadNext(l: Layout, i: nat)
    requires Container(l) && i < |Parts(l)|
    ensures UnreadRest(l, i) <==> UnreadAt(l, i) || (i + 1 < |Parts(l)| && UnreadRest(l, i + 1))
  {
    hide UnreadPart, Symbolic;
    assert !UnreadFrom(Parts(l), |Parts(l)|);
    assert l.LArray? ==> Parts(l) == l.elements;
  }

  lemma Opening(l: Layout, key: string, d: string, p: nat)
    requires Container(l) && At(d, p, TextOf(l))
    ensures p < |d| && At(d, p + 1, Ending(l, 0)) && |TextOf(l)| == 1 + |Ending(l, 0)|
    ensures DecodeValue(key, d, p) == DecodeChildren(Empty(l, key), d, p + 1, PartStart(l), Closing(l))
  {
    var open := if l.LObject? then "{" else "[";
    hide From;
    assert TextOf(l) == open + Ending(l, 0);
    hide Ending, TextOf;
    Split(d, p, open, Ending(l, 0));
    Bounds(d, p, open);
    ElementAt(d, p, open, 0);
    hide At, DecodeChildren, ParseNumber, ParseString, ParseSymbol;
  }

  /** An object or an array from its opening bracket. */
  lemma {:induction false} ReadContainer(l: Layout, key: string, d: string, p: nat)
    requires Written(l) && Container(l) && At(d, p, TextOf(l)) && p < |d| && p + |TextOf(l)| <= |d|
    ensures DecodeValue(key, d, p) == if Unread(l) then Reject else Accept(Tree(l, key), p + |TextOf(l)|)
    decreases l, 0, |Parts(l)| + 1
  {
    Opening(l, key, d, p);
    TreeIs(l, key);
    hide At, Written, TextOf, Ending, DecodeValue, DecodeChildren, Empty, Tree, Unread, UnreadRest, Collected;
    if Parts(l) == [] {
      NoParts(l, key, d, p + 1);
    } else {
      ReadParts(l, key, 0, d, p + 1);
    }
  }

  lemma TreeIs(l: Layout, key: string)
    requires Container(l)
    ensures Tree(l, key) == Collected(Empty(l, key), Parts(l), |Parts(l)|)
    ensures Collected(Empty(l, key), Parts(l), 0) == Empty(l, key)
    ensures Unread(l) == UnreadRest(l, 0) && (Parts(l) == [] ==> !Unread(l))
  {
    hide Symbolic;
  }

  lemma NoParts(l: Layout, key: string, d: string, p: nat)
    requires Written(l) && Container(l) && Parts(l) == [] && At(d, p, Ending(l, 0))
    ensures p <= |d|
    ensures DecodeChildren(Empty(l, key), d, p, PartStart(l), Closing(l))
         == Accept(Empty(l, key), p + |Ending(l, 0)|)
  {
    var n, gap, close := Empty(l, key), GapOf(l), [Closing(l)];
    var e := p + |gap|;
    assert Ending(l, 0) == gap + close;
    Split(d, p, gap, close);
    ElementAt(d, e, close, 0);
    Bounds(d, e, close);
    SkipGap(d, p, gap);
    assert SkipSpace(d, e) == e;
    assert Partial(n, 0) == n;
    hide SkipSpace, DecodeChildren, Partial;
    ClosingBracket(n, d, p, e);
  }

  // ---------------------------------------------------------------- whole texts

  /** What decoding makes of every text of an object, an array or a string, whatever its gaps and quotes and whatever
      follows it: nothing if some array in it ends in true, false or null, otherwise the tree it stands for, up to its
      last character. */
  lemma DecodeLayout(l: Layout, before: string, rest: string)
    requires Written(l) && (Container(l) || l.LString?) && Gap(before)
    ensures DecodeText(before + TextOf(l) + rest)
         == if Unread(l) then Reject else Accept(Tree(l, ""), |before| + |TextOf(l)|)
  {
    var d, p := before + TextOf(l) + rest, |before|;
    assert d[..p] == before && d[p..p + |TextOf(l)|] == TextOf(l);
    assert At(d, 0, before) && At(d, p, TextOf(l));
    TextStarts(l);
    assert d[p] == TextOf(l)[0];
    hide At, TextOf, Written, Tree, Unread, DecodeValue;
    ElementStart(d, 0, before, p);
    if Container(l) {
      ReadContainer(l, "", d, p);
    } else {
      hide IsSpace, Gap, SkipSpace;
      StringRoot(l, d, p);
    }
  }

  lemma StringRoot(l: Layout, d: string, p: nat)
    requires l.LString? && Written(l) && At(d, p, TextOf(l)) && p < |d|
    ensures !Unread(l) && DecodeValue("", d, p) == Accept(Tree(l, ""), p + |TextOf(l)|)
  {
    hide DecodeValue, At, Closed;
    ReadString("", d, p, l.quote, l.text);
  }

  /** The same tokens, whatever the gaps and the quotes. */
  predicate Alike(l: Layout, m: Layout)
    decreases l
  {
    match l
    case LString(_, text) => m.LString? && m.text == text
    case LObject(ms, _) =>
      m.LObject? && |m.members| == |ms| && forall i :: 0 <= i < |ms| ==> AlikeParts(ms[i], m.members[i])
    case LArray(es, _) =>
      m.LArray? && |m.elements| == |es| && forall i :: 0 <= i < |es| ==> AlikeParts(es[i], m.elements[i])
    case _ => l == m
  }

  predicate AlikeParts(p: Part, q: Part)
    decreases p
  {
    KeyOf(p.name) == KeyOf(q.name) && Alike(p.value, q.value)
  }

  lemma {:induction false} AlikeTrees(l: Layout, m: Layout, key: string)
    requires Alike(l, m)
    ensures Tree(l, key) == Tree(m, key) && Unread(l) == Unread(m)
    decreases l, 1, 0
  {
    if Container(l) {
      AlikeRest(Empty(l, key), Parts(l), Parts(m), |Parts(l)|);
      AlikeUnread(Parts(l), Parts(m), 0);
      TreeIs(l, key);
      TreeIs(m, key);
      if l.LArray? && l.elements != [] {
        AlikeSymbols(l.elements[|l.elements| - 1], m.elements[|m.elements| - 1]);
      }
      hide Tree, Collected, UnreadFrom, Symbolic, AlikeParts;
    }
  }

  lemma AlikeSymbols(p: Part, q: Part)
    requires AlikeParts(p, q)
    ensures Symbolic(p.value) == Symbolic(q.value)
  {
  }

  lemma {:induction false} AlikePart(p: Part, q: Part)
    requires AlikeParts(p, q)
    ensures PartTree(p) == PartTree(q) && UnreadPart(p) == UnreadPart(q)
    decreases p, 0, 0
  {
    AlikeTrees(p.value, q.value, KeyOf(p.name));
    hide Tree, Unread, Alike;
  }

  lemma {:induction false} AlikeRest(node: Node, ps: seq<Part>, qs: seq<Part>, i: nat)
    requires i <= |ps| == |qs| && forall j :: 0 <= j < |ps| ==> AlikeParts(ps[j], qs[j])
    ensures Collected(node, ps, i) == Collected(node, qs, i)
    decreases ps, 0, i
  {
    hide AlikeParts, Attach, PartTree;
    if i > 0 {
      AlikeRest(node, ps, qs, i - 1);
      AlikePart(ps[i - 1], qs[i - 1]);
    }
  }

  lemma {:induction false} AlikeUnread(ps: seq<Part>, qs: seq<Part>, i: nat)
    requires i <= |ps| == |qs| && forall j :: 0 <= j < |ps| ==> AlikeParts(ps[j], qs[j])
    ensures UnreadFrom(ps, i) == UnreadFrom(qs, i)
    decreases ps, 0, |ps| - i
  {
    hide AlikeParts, UnreadPart;
    if i < |ps| {
      AlikeUnread(ps, qs, i + 1);
      AlikePart(ps[i], qs[i]);
    }
  }

  /** Gaps and quotes do not matter: compact, indented and tabbed texts with any line ends give the same tree. */
  lemma LayoutDoesNotMatter(l: Layout, m: Layout, before: string, after: string)
    requires Written(l) && Written(m) && Alike(l, m) && (Container(l) || l.LString?) && Gap(before) && Gap(after)
    ensures var r, s := DecodeText(before + TextOf(l)), DecodeText(TextOf(m) + after);
            r.Accept? == s.Accept? && (r.Accept? ==> r.node == s.node)
  {
    AlikeTrees(l, m, "");
    assert Container(m) || m.LString?;
    hide Written, TextOf, Tree, Unread, Alike, DecodeText;
    DecodeLayout(l, before, "");
    DecodeLayout(m, "", after);
    assert before + TextOf(l) + "" == before + TextOf(l) && "" + TextOf(m) + after == TextOf(m) + after;
  }
}
