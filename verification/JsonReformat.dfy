/** The static `json::format` of Include/util/json.hpp: a text is decoded and its tree printed. */
module JsonReformat {
  import opened Buffers
  import opened Json
  import opened JsonProofs

  /** Decodes a text and prints the tree, or nothing. */
  function Reformat(text: string): string {
    match DecodeText(text)
    case Reject => ""
    case Accept(n, _) => Format(n)
  }

  // ---------------------------------------------------------------- decoding leaves no empty array element

  /** No array element anywhere in the tree is empty. */
  ghost predicate Tidy(n: Node) { Pruned(n) == n }

  ghost predicate AllTidy(n: Node) {
    && (forall i :: 0 <= i < |n.kv| ==> Tidy(n.kv[i]))
    && (forall i :: 0 <= i < |n.arr| ==> Tidy(n.arr[i]) && HasContent(n.arr[i]))
  }

  lemma TidyIff(n: Node)
    ensures Tidy(n) <==> AllTidy(n)
  {
    PrunedIs(n);
    hide Pruned, HasContent;
    assert n.kv[..|n.kv|] == n.kv && n.arr[..|n.arr|] == n.arr;
    if Tidy(n) {
      forall i | 0 <= i < |n.kv| ensures Tidy(n.kv[i]) { MemberAt(n.kv, |n.kv|, i); }
      forall i | 0 <= i < |n.arr| ensures Tidy(n.arr[i]) && HasContent(n.arr[i]) {
        ElementAtSamePlace(n.arr, |n.arr|, i);
      }
    }
    if AllTidy(n) {
      MembersKept(n.kv, |n.kv|);
      ElementsKept(n.arr, |n.arr|);
    }
  }

  lemma {:induction false} EmplaceAdds(kv: seq<Node>, n: Node)
    ensures forall x <- Emplace(kv, n) :: x in kv || x == n
    decreases |kv|
  {
    hide Less;
    if kv != [] { EmplaceAdds(kv[1..], n); }
  }

  lemma AttachTidy(node: Node, child: Node)
    requires Tidy(node) && Tidy(child)
    ensures Tidy(Attach(node, child)) && Attach(node, child).key == node.key
  {
    var r := Attach(node, child);
    TidyIff(node);
    TidyIff(r);
    EmplaceAdds(node.kv, child);
    hide Pruned, Tidy, HasContent, Emplace;
    if child.key != "" {
      forall i | 0 <= i < |r.kv| ensures Tidy(r.kv[i]) { assert r.kv[i] in node.kv || r.kv[i] == child; }
    }
  }

  lemma LeafIsTidy(n: Node)
    requires n.kv == [] && n.arr == []
    ensures Tidy(n)
  {
  }

  lemma {:induction false} DecodedIsTidy(d: string, p: nat, start: Start)
    requires p <= |d| && Decode(d, p, start).Accept?
    ensures Tidy(Decode(d, p, start).node) && (start == AtType ==> Decode(d, p, start).node.key == "")
    decreases |d| - p, 2
  {
    LeafIsTidy(BLANK);
    hide DecodeType, Tidy, SkipSpace;
    if start == AtType {
      TypedIsTidy("", d, p);
    } else {
      var k := SkipSpace(d, p);
      if IsQuote(d[k]) {
        hide Find;
        var e := Find(d[k], d, k + 1);
        TypedIsTidy(d[k + 1..e], d, e + 1);
      }
    }
  }

  lemma {:induction false} TypedIsTidy(key: string, d: string, p: nat)
    requires p <= |d| && DecodeType(key, d, p).Accept?
    ensures Tidy(DecodeType(key, d, p).node) && DecodeType(key, d, p).node.key == key
    decreases |d| - p, 1
  {
    hide DecodeValue, Tidy, SkipSpace;
    var c := SkipSpace(d, p);
    ValuedIsTidy(key, d, if key == "" then c else SkipSpace(d, c + 1));
  }

  lemma {:induction false} ValuedIsTidy(key: string, d: string, q: nat)
    requires q < |d| && DecodeValue(key, d, q).Accept?
    ensures Tidy(DecodeValue(key, d, q).node) && DecodeValue(key, d, q).node.key == key
    decreases |d| - q, 0
  {
    hide DecodeChildren, SkipSpace, SkipNumber, FindUnescaped, NumberText;
    if d[q] == '{' {
      LeafIsTidy(BLANK.(key := key));
      ChildrenAreTidy(BLANK.(key := key), d, q + 1, AtKey, '}');
    } else if d[q] == '[' {
      LeafIsTidy(BLANK.(key := key, typ := TArray));
      ChildrenAreTidy(BLANK.(key := key, typ := TArray), d, q + 1, AtType, ']');
    } else {
      LeafIsTidy(DecodeValue(key, d, q).node);
    }
  }

  lemma {:induction false} ChildrenAreTidy(node: Node, d: string, p: nat, start: Start, symbol: char)
    requires p <= |d| && Tidy(node) && DecodeChildren(node, d, p, start, symbol).Accept?
    ensures Tidy(DecodeChildren(node, d, p, start, symbol).node)
    ensures DecodeChildren(node, d, p, start, symbol).node.key == node.key
    decreases |d| - p, 3
  {
    hide Decode, Tidy, SkipSpace, Attach;
    var r := Decode(d, p, start);
    DecodedIsTidy(d, p, start);
    AttachTidy(node, r.node);
    var q := SkipSpace(d, r.pos);
    if d[q] != symbol {
      ChildrenAreTidy(Attach(node, r.node), d, q + 1, start, symbol);
    }
  }

  // ---------------------------------------------------------------- formatting twice

  lemma {:induction false} NumberToTheEnd(d: string, p: nat)
    requires 0 < p <= |d| && forall j :: 0 < j < |d| ==> IsNumberChar(d[j])
    ensures SkipNumber(d, p) == |d|
    decreases |d| - p
  {
    if p < |d| { NumberToTheEnd(d, p + 1); }
  }

  lemma RootValue(d: string)
    requires d != "" && !IsSpace(d[0])
    ensures DecodeText(d) == DecodeValue("", d, 0)
  {
    hide DecodeValue;
    assert SkipSpace(d, 0) == 0;
    assert DecodeType("", d, 0) == DecodeValue("", d, 0);
  }

  lemma ScalarText(n: Node)
    requires Lexical(n) && n.key == "" && n.typ != TObject && n.typ != TArray
    ensures Format(n) == if n.typ == TString then "\"" + n.value + "\"" else n.value
    ensures Format(n) != "" && !IsSpace(Format(n)[0])
  {
    ElementText(n, 0);
    FirstChar(n, 0);
    hide Lexical, Text;
  }

  lemma NumberAloneIsRefused(n: Node)
    requires Lexical(n) && (n.typ == TInteger || n.typ == TFloat)
    ensures n.value != "" && DecodeValue("", n.value, 0) == Reject
  {
    var d := n.value;
    NumberToTheEnd(d, 1);
    hide DecodeChildren, ParseString, ParseSymbol, SkipNumber, NumberText, At;
  }

  lemma SymbolAloneIsRefused(n: Node)
    requires Lexical(n) && Symbol(n)
    ensures n.value != "" && DecodeValue("", n.value, 0) == Reject
  {
    var v := n.value;
    assert v == "true" || v == "false" || v == "null";
    assert v[0..|v|] == v;
    assert At(v, 0, v);
    if v == "false" {
      NotAnother(v, 0, v, "true");
    } else if v == "null" {
      NotAnother(v, 0, v, "true");
      NotAnother(v, 0, v, "false");
    }
    assert SkipSpace(v, |v|) == |v|;
    hide DecodeChildren, ParseString, ParseNumber, At, SkipSpace, Lexical;
  }

  lemma StringAloneIsRead(n: Node)
    requires Lexical(n) && n.typ == TString && n.key == ""
    ensures DecodeValue("", "\"" + n.value + "\"", 0) == Accept(n, |n.value| + 2)
  {
    var d := "\"" + n.value + "\"";
    assert At(d, 0, d) by { assert d[0..|d|] == d; }
    hide DecodeValue, At, Lexical;
    DecodeString(n, d, 0);
  }

  /** The text printed for a scalar is read again for strings only. */
  lemma ScalarAlone(n: Node)
    requires Lexical(n) && n.key == "" && n.typ != TObject && n.typ != TArray
    ensures if n.typ == TString then DecodeText(Format(n)) == Accept(n, |Format(n)|)
            else Format(n) != "" && DecodeText(Format(n)) == Reject
  {
    ScalarText(n);
    RootValue(Format(n));
    hide DecodeText, DecodeValue, Lexical, Format;
    if n.typ == TString {
      StringAloneIsRead(n);
    } else if Symbol(n) {
      SymbolAloneIsRefused(n);
    } else {
      NumberAloneIsRefused(n);
    }
  }

  lemma ContainerHasText(n: Node)
    requires n.typ == TObject || n.typ == TArray
    ensures Format(n) != ""
  {
    ContainerText(n, 0);
    hide Lines, ValueText, KeyText;
  }

  /** Formatting formatted text changes nothing exactly if the tree decoded first is a string, or an object or array
      in which no array ends in a boolean or null: other texts are printed, and the print is refused. */
  lemma FormatIsIdempotentIff(text: string)
    requires DecodeText(text).Accept? && Lexical(DecodeText(text).node)
    ensures var n := DecodeText(text).node;
            Reformat(Reformat(text)) == Reformat(text) <==>
              !Refused(n) && (n.typ == TString || n.typ == TObject || n.typ == TArray)
  {
    hide Decode, Format, Lexical, Refused, Pruned;
    var n := DecodeText(text).node;
    DecodedIsTidy(text, 0, AtType);
    if n.typ == TObject || n.typ == TArray {
      ContainerHasText(n);
      DecodeOfFormat(n);
    } else {
      ScalarIsKept(n);
      ScalarAlone(n);
    }
  }

  /** A trailing comma lets a text in whose print is refused. */
  lemma TrailingComma()
    ensures DecodeText("[true,]").Accept? && Reformat("[true,]") != "" && Reformat(Reformat("[true,]")) == ""
  {
    var d := "[true,]";
    RootValue(d);
    FirstElement(d);
    LastElement(d);
    hide Decode, Format, SkipSpace, At;
    var root := BLANK.(typ := TArray);
    var element := Node(TBoolean, "", "true", [], []);
    assert DecodeValue("", d, 0) == DecodeChildren(root, d, 1, AtType, ']');
    assert DecodeChildren(root, d, 1, AtType, ']') == DecodeChildren(Attach(root, element), d, 6, AtType, ']');
    assert DecodeChildren(LONE_TRUE, d, 6, AtType, ']') == Accept(LONE_TRUE, 7);
    ContainerHasText(LONE_TRUE);
    LoneTrueIsRefused();
  }

  lemma FirstElement(d: string)
    requires d == "[true,]"
    ensures Decode(d, 1, AtType) == Accept(Node(TBoolean, "", "true", [], []), 5) && SkipSpace(d, 5) == 5
  {
    assert SkipSpace(d, 1) == 1 && SkipSpace(d, 5) == 5 && d[1..5] == "true";
    assert DecodeValue("", d, 1) == ParseSymbol("", d, 1, TBoolean, "true");
    hide DecodeValue;
  }

  lemma LastElement(d: string)
    requires d == "[true,]"
    ensures Decode(d, 6, AtType) == Accept(BLANK, 6) && SkipSpace(d, 6) == 6
  {
    assert SkipSpace(d, 6) == 6;
    assert DecodeValue("", d, 6) == Accept(BLANK, 6);
    hide DecodeValue;
  }

  // ---------------------------------------------------------------- what the printer prints

  lemma FourBlanks()
    ensures Spaces(0) == "" && Spaces(4) == "    " && Spaces(8) == "        "
  {
  }

  lemma OneLine(n: Node, indent: nat)
    ensures Lines([n], 1, indent) == Spaces(indent) + Text(n, indent)
  {
    hide Text;
    assert Lines([n], 0, indent) == "";
  }

  lemma TwoLines(n: Node, m: Node, indent: nat)
    ensures Lines([n, m], 2, indent)
         == Spaces(indent) + Text(n, indent) + ",\n" + Spaces(indent) + Text(m, indent)
  {
    hide Text;
    assert Lines([n, m], 0, indent) == "";
    assert Lines([n, m], 1, indent) == Spaces(indent) + Text(n, indent);
  }

  /** One line for every child, four blanks for every level, a comma behind every child but the last. */
  lemma PrettyText()
    ensures var x, one := Node(TString, "", "x", [], []), Node(TInteger, "a", "1", [], []);
            Format(Node(TObject, "", "", [one, Node(TArray, "b", "", [], [x])], []))
              == "{\n" + "    \"a\": 1,\n" + "    \"b\": [\n" + "        \"x\"\n" + "    ]\n" + "}"
  {
    var x, one := Node(TString, "", "x", [], []), Node(TInteger, "a", "1", [], []);
    var b := Node(TArray, "b", "", [], [x]);
    FourBlanks();
    OneLine(x, 8);
    TwoLines(one, b, 4);
    hide Lines, Spaces;
    assert Text(x, 8) == "\"x\"" && Text(one, 4) == "\"a\": " + "1";
    assert Text(b, 4) == "\"b\": " + ("[\n" + ("        " + "\"x\"") + "\n" + "    " + "]");
    RootText([one, b]);
    hide Text, Format;
    PrettyLines();
    Assembled("    ", "\"a\": " + "1", "\"b\": ", "        " + "\"x\"");
  }

  lemma RootText(kv: seq<Node>)
    ensures Format(Node(TObject, "", "", kv, [])) == "{\n" + Lines(kv, |kv|, 4) + "\n" + "}"
  {
    var n, l := Node(TObject, "", "", kv, []), Lines(kv, |kv|, 4);
    assert ValueText(n, 0) == "{\n" + l + "\n" + Spaces(0) + "}" && KeyText(n) == "";
    hide Lines, ValueText, KeyText;
    assert Spaces(0) == "" && "{\n" + l + "\n" + "" == "{\n" + l + "\n";
    assert "" + ValueText(n, 0) == ValueText(n, 0);
  }

  lemma Assembled(s: string, t: string, key: string, element: string)
    ensures "{\n" + (s + t + ",\n" + s + (key + ("[\n" + element + "\n" + s + "]"))) + "\n" + "}"
         == "{\n" + (s + t + ",\n") + (s + key + "[\n") + (element + "\n") + (s + "]" + "\n") + "}"
  {
  }

  lemma PrettyLines()
    ensures "    " + ("\"a\": " + "1") + ",\n" == "    \"a\": 1,\n" && "    " + "\"b\": " + "[\n" == "    \"b\": [\n"
    ensures "        " + "\"x\"" + "\n" == "        \"x\"\n" && "    " + "]" + "\n" == "    ]\n"
  {
  }
}
