/** What is refused: texts that break off, and children without a separator. */
module JsonPrefix {
  import opened Buffers
  import opened Json
  import opened JsonProofs
  import opened JsonLayout

  // ---------------------------------------------------------------- more text behind

  lemma {:induction false} GrowSpace(d: string, x: string, p: nat)
    requires p <= |d| && SkipSpace(d, p) < |d|
    ensures SkipSpace(d + x, p) == SkipSpace(d, p)
    decreases |d| - p
  {
    assert p < |d| && (d + x)[p] == d[p];
    if IsSpace(d[p]) { GrowSpace(d, x, p + 1); }
  }

  lemma {:induction false} GrowNumber(d: string, x: string, p: nat)
    requires p <= |d| && SkipNumber(d, p) < |d|
    ensures SkipNumber(d + x, p) == SkipNumber(d, p)
    decreases |d| - p
  {
    assert p < |d| && (d + x)[p] == d[p];
    if IsNumberChar(d[p]) { GrowNumber(d, x, p + 1); }
  }

  lemma {:induction false} GrowFind(ch: char, d: string, x: string, p: nat)
    requires p <= |d| && Find(ch, d, p) < |d|
    ensures Find(ch, d + x, p) == Find(ch, d, p)
    decreases |d| - p
  {
    assert p < |d| && (d + x)[p] == d[p];
    if d[p] != ch { GrowFind(ch, d, x, p + 1); }
  }

  lemma {:induction false} GrowUnescaped(ch: char, d: string, x: string, p: nat)
    requires 0 < p <= |d| && FindUnescaped(ch, d, p) < |d|
    ensures FindUnescaped(ch, d + x, p) == FindUnescaped(ch, d, p)
    decreases |d| - p
  {
    assert p < |d| && (d + x)[p] == d[p] && (d + x)[p - 1] == d[p - 1];
    if !(d[p] == ch && d[p - 1] != '\\') { GrowUnescaped(ch, d, x, p + 1); }
  }

  lemma GrowAt(d: string, x: string, p: nat, t: string)
    requires p <= |d|
    ensures At(d, p, t) ==> At(d + x, p, t)
  {
    if At(d, p, t) { assert (d + x)[p..p + |t|] == d[p..p + |t|]; }
  }

  /** A result with a comma or a closing bracket behind it. */
  predicate Firm(d: string, r: Result) {
    && r.Accept? && r.pos <= |d| && SkipSpace(d, r.pos) < |d|
    && var c := d[SkipSpace(d, r.pos)]; c == ',' || c == '}' || c == ']'
  }

  lemma GrowNumberNode(key: string, d: string, x: string, p: nat)
    requires p < |d| && ParseNumber(key, d, p).Accept?
    ensures ParseNumber(key, d + x, p) == ParseNumber(key, d, p)
  {
    GrowNumber(d, x, p + 1);
    var q := SkipNumber(d, p + 1);
    assert (d + x)[p..q] == d[p..q];
    hide NumberText, SkipNumber;
  }

  lemma GrowStringNode(key: string, d: string, x: string, p: nat)
    requires p < |d| && ParseString(key, d, p).Accept?
    ensures ParseString(key, d + x, p) == ParseString(key, d, p)
  {
    GrowUnescaped(d[p], d, x, p + 1);
    var q := FindUnescaped(d[p], d, p + 1);
    assert (d + x)[p + 1..q] == d[p + 1..q] && (d + x)[p] == d[p];
    hide FindUnescaped;
  }

  lemma GrowSymbolNode(key: string, d: string, x: string, p: nat, typ: Type, symbol: string)
    requires At(d, p, symbol) && ParseSymbol(key, d, p, typ, symbol).Accept?
    ensures At(d + x, p, symbol) && ParseSymbol(key, d + x, p, typ, symbol) == ParseSymbol(key, d, p, typ, symbol)
  {
    GrowAt(d, x, p, symbol);
    GrowSpace(d, x, p + |symbol|);
    hide SkipSpace;
  }

  lemma FirstOfSymbol(d: string, q: nat, t: string)
    requires At(d, q, t) && t != ""
    ensures q < |d| && d[q] == t[0]
  {
    ElementAt(d, q, t, 0);
  }

  /** A value that is no container. */
  lemma GrowScalar(key: string, d: string, x: string, q: nat)
    requires q < |d| && d[q] != '{' && d[q] != '[' && Firm(d, DecodeValue(key, d, q))
    ensures DecodeValue(key, d + x, q) == DecodeValue(key, d, q)
  {
    var e, ch := d + x, d[q];
    assert e[q] == ch && (q + 1 < |d| ==> e[q + 1] == d[q + 1]);
    hide At, DecodeChildren, ParseNumber, ParseString, ParseSymbol;
    if IsDigit(ch) || (ch == '-' && q + 1 < |d| && IsDigit(d[q + 1])) {
      if ParseNumber(key, d, q).Accept? { GrowNumberNode(key, d, x, q); }
    } else if ch == '-' {
      NoSymbolAtSign(d, q);
    } else if IsQuote(ch) {
      if ParseString(key, d, q).Accept? { GrowStringNode(key, d, x, q); }
    } else {
      GrowWord(key, d, x, q);
    }
  }

  /** A minus sign without a digit is no value; nothing but itself stands behind the place it is read at. */
  lemma NoSymbolAtSign(d: string, q: nat)
    requires q < |d| && d[q] == '-'
    ensures SkipSpace(d, q) == q
  {
  }

  lemma GrowWord(key: string, d: string, x: string, q: nat)
    requires q < |d| && d[q] != '{' && d[q] != '[' && d[q] != '-' && !IsDigit(d[q]) && !IsQuote(d[q])
    requires Firm(d, DecodeValue(key, d, q))
    ensures DecodeValue(key, d + x, q) == DecodeValue(key, d, q)
  {
    var e := d + x;
    assert e[q] == d[q];
    GrowAt(d, x, q, "true");
    GrowAt(d, x, q, "false");
    GrowAt(d, x, q, "null");
    if At(e, q, "true") { FirstOfSymbol(e, q, "true"); }
    if At(e, q, "false") { FirstOfSymbol(e, q, "false"); }
    if At(e, q, "null") { FirstOfSymbol(e, q, "null"); }
    hide At, DecodeChildren, ParseNumber, ParseString, ParseSymbol;
    if At(d, q, "true") {
      GrowSymbolNode(key, d, x, q, TBoolean, "true");
    } else if At(d, q, "false") {
      GrowSymbolNode(key, d, x, q, TBoolean, "false");
    } else if At(d, q, "null") {
      GrowSymbolNode(key, d, x, q, TNull, "null");
    }
  }

  lemma {:induction false} GrowValue(key: string, d: string, x: string, q: nat)
    requires q < |d| && DecodeValue(key, d, q).Accept?
    requires d[q] == '{' || d[q] == '[' || Firm(d, DecodeValue(key, d, q))
    ensures DecodeValue(key, d + x, q) == DecodeValue(key, d, q)
    decreases |d| - q, 0
  {
    assert (d + x)[q] == d[q];
    hide DecodeChildren, ParseNumber, ParseString, ParseSymbol, Firm, At;
    if d[q] == '{' {
      GrowChildren(BLANK.(key := key), d, x, q + 1, AtKey, '}');
    } else if d[q] == '[' {
      GrowChildren(BLANK.(key := key, typ := TArray), d, x, q + 1, AtType, ']');
    } else {
      GrowScalar(key, d, x, q);
    }
  }

  lemma {:induction false} GrowType(key: string, d: string, x: string, p: nat)
    requires p <= |d| && Firm(d, DecodeType(key, d, p))
    ensures DecodeType(key, d + x, p) == DecodeType(key, d, p)
    decreases |d| - p, 1
  {
    hide DecodeValue;
    GrowSpace(d, x, p);
    var c := SkipSpace(d, p);
    if key != "" { GrowSpace(d, x, c + 1); }
    var q := if key == "" then c else SkipSpace(d, c + 1);
    GrowValue(key, d, x, q);
    hide SkipSpace, Firm;
    assert (d + x)[c] == d[c];
  }

  lemma {:induction false} GrowDecode(d: string, x: string, p: nat, start: Start)
    requires p <= |d| && Firm(d, Decode(d, p, start))
    ensures Decode(d + x, p, start) == Decode(d, p, start)
    decreases |d| - p, 2
  {
    hide DecodeType;
    if start == AtType {
      GrowType("", d, x, p);
    } else {
      GrowSpace(d, x, p);
      var k := SkipSpace(d, p);
      hide SkipSpace, Firm;
      assert (d + x)[k] == d[k];
      if IsQuote(d[k]) {
        GrowFind(d[k], d, x, k + 1);
        var e := Find(d[k], d, k + 1);
        assert (d + x)[k + 1..e] == d[k + 1..e];
        GrowType(d[k + 1..e], d, x, e + 1);
      }
    }
  }

  /** Children that are accepted are accepted with whatever stands behind them. */
  lemma {:induction false} GrowChildren(node: Node, d: string, x: string, p: nat, start: Start, symbol: char)
    requires p <= |d| && (symbol == '}' || symbol == ']') && DecodeChildren(node, d, p, start, symbol).Accept?
    ensures DecodeChildren(node, d + x, p, start, symbol) == DecodeChildren(node, d, p, start, symbol)
    decreases |d| - p, 3
  {
    hide Decode, Attach;
    var r := Decode(d, p, start);
    var q := SkipSpace(d, r.pos);
    assert Firm(d, r);
    GrowDecode(d, x, p, start);
    GrowSpace(d, x, r.pos);
    hide SkipSpace, Firm;
    assert (d + x)[q] == d[q];
    if d[q] != symbol { GrowChildren(Attach(node, r.node), d, x, q + 1, start, symbol); }
  }

  // ---------------------------------------------------------------- texts that break off

  lemma {:induction false} OnlyGap(d: string, p: nat)
    requires p <= |d| && Gap(d)
    ensures SkipSpace(d, p) == |d|
    decreases |d| - p
  {
    if p < |d| { OnlyGap(d, p + 1); }
  }

  lemma OpeningChar(l: Layout)
    requires Container(l)
    ensures TextOf(l) != "" && TextOf(l)[0] == if l.LObject? then '{' else '['
  {
    hide From;
  }

  /** A text whose root stands behind a gap. */
  lemma RootStart(d: string, before: string)
    requires Gap(before) && |before| < |d| && d[..|before|] == before && (d[|before|] == '{' || d[|before|] == '[')
    ensures DecodeText(d) == DecodeValue("", d, |before|)
  {
    assert At(d, 0, before);
    hide DecodeValue;
    ElementStart(d, 0, before, |before|);
  }

  /** No text of an object or an array is accepted before its closing bracket is there. */
  lemma Truncated(l: Layout, before: string, k: nat)
    requires Written(l) && Container(l) && Gap(before) && k < |before| + |TextOf(l)|
    ensures DecodeText((before + TextOf(l))[..k]) == Reject
  {
    var b, text := |before|, before + TextOf(l);
    var d, x := text[..k], text[k..];
    assert d + x == text;
    OpeningChar(l);
    hide TextOf, Written, Tree, DecodeValue;
    if k <= b {
      assert Gap(d) by { assert d == before[..k]; }
      OnlyGap(d, 0);
      assert DecodeType("", d, 0) == Reject;
    } else {
      assert d[..b] == before && text[..b] == before && d[b] == text[b] == TextOf(l)[0];
      hide Gap;
      RootStart(d, before);
      RootStart(text, before);
      if DecodeText(d).Accept? {
        GrowValue("", d, x, b);
        DecodeLayout(l, before, "");
        assert text + "" == text;
      }
    }
  }

  // ---------------------------------------------------------------- separators

  /** Behind a child there must be a comma or the closing bracket. */
  lemma SeparatorNeeded(node: Node, d: string, p: nat, start: Start, symbol: char)
    requires p <= |d| && Decode(d, p, start).Accept?
    requires var q := SkipSpace(d, Decode(d, p, start).pos); q < |d| ==> d[q] != ',' && d[q] != symbol
    ensures DecodeChildren(node, d, p, start, symbol) == Reject
  {
    hide Decode, SkipSpace;
  }

  // ---------------------------------------------------------------- numbers

  function Points(v: string): nat {
    if v == "" then 0 else Points(v[..|v| - 1]) + if v[|v| - 1] == '.' then 1 else 0
  }

  lemma {:induction false} NoPoint(v: string)
    ensures Points(v) == 0 <==> '.' !in v
    decreases |v|
  {
    if v != "" {
      NoPoint(v[..|v| - 1]);
      assert v == v[..|v| - 1] + [v[|v| - 1]];
    }
  }

  lemma {:induction false} AtMostOnePoint(v: string)
    ensures Points(v) <= 1 <==> forall i, j :: 0 <= i < j < |v| ==> !(v[i] == '.' && v[j] == '.')
    decreases |v|
  {
    if v != "" {
      var k := |v| - 1;
      var w := v[..k];
      AtMostOnePoint(w);
      NoPoint(w);
      if v[k] == '.' && '.' in w {
        var i :| 0 <= i < |w| && w[i] == '.';
        assert v[i] == '.' && v[k] == '.';
      }
      assert forall i :: 0 <= i < k ==> v[i] == w[i];
    }
  }

  predicate NumberCharacter(c: char) { '0' <= c <= '9' || c == '.' || c == '-' }

  /** A run of digits, points and minus signs is a number exactly if it has at most one point, which is not its last
      character and not right behind the sign, and no minus sign unless the first character is one. */
  lemma NumberIff(key: string, d: string, p: nat, v: string)
    requires v != "" && (forall i :: 0 <= i < |v| ==> NumberCharacter(v[i]))
    requires At(d, p, v) && p + |v| < |d| && !NumberCharacter(d[p + |v|])
    ensures p < |d|
    ensures ParseNumber(key, d, p).Accept?
       <==> Points(v) <= 1 && v[|v| - 1] != '.' && ('-' in v ==> v[0] == '-')
            && !(|v| >= 2 && v[0] == '-' && v[1] == '.')
    ensures ParseNumber(key, d, p).Accept? ==> ParseNumber(key, d, p).node.value == v
  {
    SameCharacters();
    NumberTextIff(v);
    assert d[p..p + |v|] == v;
    hide Points, SkipNumber, IsNumberChar, NumberCharacter, NumberText;
    NumberEnds(d, p, v, 1);
    hide At;
  }

  lemma SameCharacters()
    ensures forall c :: IsNumberChar(c) <==> NumberCharacter(c)
  {
  }

  lemma NumberTextIff(v: string)
    requires v != ""
    ensures NumberText(v)
       <==> Points(v) <= 1 && v[|v| - 1] != '.' && ('-' in v ==> v[0] == '-')
            && !(|v| >= 2 && v[0] == '-' && v[1] == '.')
  {
    AtMostOnePoint(v);
    hide Points;
  }
}
