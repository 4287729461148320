/** The parser and the printer as the C++ code runs them: one cursor shared by all parsing functions, one
    output string that the printer appends to. Nodes are values that the methods build up. */
module JsonParser {
  import opened Buffers
  import opened Json
  import opened Wrappers

  class Parser {
    const data: string
    var costLen: nat

    constructor (data: string)
      ensures this.data == data && costLen == 0
    {
      this.data, costLen := data, 0;
    }

    ghost predicate Valid()
      reads this
    {
      costLen <= |data|
    }

    method SkipWhite() returns (more: bool)
      requires Valid()
      modifies this
      ensures Valid() && costLen == SkipSpace(data, old(costLen)) && more == (costLen < |data|)
    {
      while costLen < |data| && IsSpace(data[costLen])
        invariant Valid() && SkipSpace(data, costLen) == SkipSpace(data, old(costLen))
      {
        costLen := costLen + 1;
      }
      more := costLen < |data|;
    }

    method SkipDigits() returns (more: bool)
      requires Valid()
      modifies this
      ensures Valid() && costLen == SkipNumber(data, old(costLen)) && more == (costLen < |data|)
    {
      while costLen < |data| && IsNumberChar(data[costLen])
        invariant Valid() && SkipNumber(data, costLen) == SkipNumber(data, old(costLen))
      {
        costLen := costLen + 1;
      }
      more := costLen < |data|;
    }

    method FindChar(ch: char) returns (more: bool)
      requires Valid()
      modifies this
      ensures Valid() && costLen == Find(ch, data, old(costLen)) && more == (costLen < |data|)
    {
      while costLen < |data| && data[costLen] != ch
        invariant Valid() && Find(ch, data, costLen) == Find(ch, data, old(costLen))
      {
        costLen := costLen + 1;
      }
      more := costLen < |data|;
    }

    /** `find_first_of` of one character. */
    static method FindFirstOf(ch: char, value: string) returns (r: Option<nat>)
      ensures r.None? ==> ch !in value
      ensures r.Some? ==> r.value < |value| && value[r.value] == ch && ch !in value[..r.value]
    {
      for i := 0 to |value|
        invariant ch !in value[..i]
      {
        if value[i] == ch {
          return Some(i);
        }
      }
      r := None;
    }

    /** `find_last_of` of one character. */
    static method FindLastOf(ch: char, value: string) returns (r: Option<nat>)
      ensures r.None? ==> ch !in value
      ensures r.Some? ==> r.value < |value| && value[r.value] == ch && ch !in value[r.value + 1..]
    {
      for i := |value| downto 0
        invariant ch !in value[i..]
      {
        if value[i] == ch {
          return Some(i);
        }
      }
      r := None;
    }

    method ParseNumberNode(key: string) returns (ok: bool, node: Node)
      requires costLen < |data|
      modifies this
      ensures Reports(ParseNumber(key, data, old(costLen)), ok, node)
    {
      hide NumberText;
      node := BLANK.(key := key);
      var begin := costLen;
      costLen := costLen + 1;
      ok := SkipDigits();
      if !ok {
        return;
      }
      var value := data[begin..costLen];
      var tmp := FindFirstOf('.', value);
      var last := FindLastOf('.', value);
      var minus := FindFirstOf('-', value);
      NumberChecks(value, tmp, last, minus);
      if tmp != last || value[|value| - 1] == '.' || (minus != Some(0) && minus != None)
         || (|value| >= 2 && value[0] == '-' && value[1] == '.') {
        return false, node;
      }
      node := Node(if tmp == None then TInteger else TFloat, key, value, [], []);
    }

    /** The checks of the source say what a number text is. */
    static lemma NumberChecks(v: string, tmp: Option<nat>, last: Option<nat>, minus: Option<nat>)
      requires v != []
      requires if tmp.None? then '.' !in v else tmp.value < |v| && v[tmp.value] == '.' && '.' !in v[..tmp.value]
      requires if last.None? then '.' !in v else last.value < |v| && v[last.value] == '.' && '.' !in v[last.value + 1..]
      requires if minus.None? then '-' !in v else minus.value < |v| && v[minus.value] == '-' && '-' !in v[..minus.value]
      ensures NumberText(v) <==>
        !(tmp != last || v[|v| - 1] == '.' || (minus != Some(0) && minus != None)
          || (|v| >= 2 && v[0] == '-' && v[1] == '.'))
      ensures tmp == None <==> '.' !in v
    {
      PointChecks(v, tmp, last);
      if minus.Some? && minus.value > 0 { assert v[0] == v[..minus.value][0]; }
    }

    /** One point at most: the first is the last. */
    static lemma PointChecks(v: string, tmp: Option<nat>, last: Option<nat>)
      requires if tmp.None? then '.' !in v else tmp.value < |v| && v[tmp.value] == '.' && '.' !in v[..tmp.value]
      requires if last.None? then '.' !in v else last.value < |v| && v[last.value] == '.' && '.' !in v[last.value + 1..]
      ensures tmp == last <==> forall i, j :: 0 <= i < j < |v| ==> !(v[i] == '.' && v[j] == '.')
    {
      if tmp == last && tmp.Some? {
        var t := tmp.value;
        forall k | 0 <= k < |v| && k != t ensures v[k] != '.' {
          if k < t { assert v[k] == v[..t][k]; } else { assert v[k] == v[t + 1..][k - t - 1]; }
        }
      }
    }

    /** Every quote found right after a backslash is passed over. */
    method ParseStringNode(key: string) returns (ok: bool, node: Node)
      requires costLen < |data|
      modifies this
      ensures Reports(ParseString(key, data, old(costLen)), ok, node)
    {
      node := BLANK.(key := key);
      var ch := data[costLen];
      costLen := costLen + 1;
      var begin := costLen;
      while true
        invariant begin <= costLen && Valid()
        invariant FindUnescaped(ch, data, costLen) == FindUnescaped(ch, data, begin)
        decreases |data| - costLen
      {
        ghost var from := costLen;
        var found := FindChar(ch);
        FoundQuote(ch, from);
        if !found {
          return false, node;
        }
        if data[costLen - 1] != '\\' {
          break;
        }
        costLen := costLen + 1;
      }
      node := Node(TString, key, data[begin..costLen], [], []);
      costLen := costLen + 1;
      ok := true;
    }

    /** No unescaped quote stands before the next quote. */
    lemma {:induction false} FoundQuote(ch: char, p: nat)
      requires 0 < p <= |data|
      ensures var q := Find(ch, data, p); FindUnescaped(ch, data, p) == FindUnescaped(ch, data, q)
      decreases |data| - p
    {
      if p < |data| && data[p] != ch {
        FoundQuote(ch, p + 1);
      }
    }

    method ParseSymbolNode(key: string, typ: Type, symbol: string) returns (ok: bool, node: Node)
      requires At(data, costLen, symbol)
      modifies this
      ensures Reports(ParseSymbol(key, data, old(costLen), typ, symbol), ok, node)
    {
      node := BLANK.(key := key);
      costLen := costLen + |symbol|;
      ok := SkipWhite();
      if !ok {
        return;
      }
      if data[costLen] != ',' && data[costLen] != '}' {
        return false, node;
      }
      node := Node(typ, key, symbol, [], []);
    }

    /** What a parsing method reports: the node and the cursor behind it, or failure. */
    ghost predicate Reports(r: Result, ok: bool, node: Node)
      reads this
    {
      match r
      case Reject => !ok
      case Accept(n, p) => ok && node == n && costLen == p && p <= |data|
    }

    method DecodeNode(start: Start) returns (ok: bool, node: Node)
      requires Valid()
      modifies this
      ensures Reports(Decode(data, old(costLen), start), ok, node)
      decreases |data| - costLen, 2
    {
      hide DecodeType, Find, SkipSpace;
      node := BLANK;
      if start == AtType {
        ok, node := DecodeTyped("");
        return;
      }
      ok := SkipWhite();
      if !ok {
        return;
      }
      var ch := data[costLen];
      if IsQuote(ch) {
        costLen := costLen + 1;
        var begin := costLen;
        ok := FindChar(ch);
        if !ok {
          return;
        }
        var key := data[begin..costLen];
        costLen := costLen + 1;
        ok, node := DecodeTyped(key);
      } else {
        ok := ch == '}';
      }
    }

    method DecodeTyped(key: string) returns (ok: bool, node: Node)
      requires Valid()
      modifies this
      ensures Reports(DecodeType(key, data, old(costLen)), ok, node)
      decreases |data| - costLen, 1
    {
      hide SkipSpace, DecodeValue;
      node := BLANK.(key := key);
      ok := SkipWhite();
      if !ok {
        return;
      }
      if key != "" {
        costLen := costLen + 1;
        if data[costLen - 1] != ':' {
          return false, node;
        }
        ok := SkipWhite();
        if !ok {
          return;
        }
      }
      ok, node := DecodeValued(key);
    }

    method DecodeValued(key: string) returns (ok: bool, node: Node)
      requires costLen < |data|
      modifies this
      ensures Reports(DecodeValue(key, data, old(costLen)), ok, node)
      decreases |data| - costLen, 0
    {
      hide DecodeChildren, ParseNumber, ParseString, ParseSymbol, At;
      ok, node := true, BLANK.(key := key);
      var ch := data[costLen];
      if ch == '{' {
        costLen := costLen + 1;
        ok, node := ParseChildren(node, AtKey, '}');
      } else if ch == '[' {
        costLen := costLen + 1;
        ok, node := ParseChildren(node.(typ := TArray), AtType, ']');
      } else if ch == '-' && costLen + 1 == |data| {
        ok := false;  // the string's checked access throws
      } else if IsDigit(ch) || (ch == '-' && IsDigit(data[costLen + 1])) {
        ok, node := ParseNumberNode(key);
      } else if IsQuote(ch) {
        ok, node := ParseStringNode(key);
      } else if At(data, costLen, "true") {
        ok, node := ParseSymbolNode(key, TBoolean, "true");
      } else if At(data, costLen, "false") {
        ok, node := ParseSymbolNode(key, TBoolean, "false");
      } else if At(data, costLen, "null") {
        ok, node := ParseSymbolNode(key, TNull, "null");
      }
    }

    method ParseChildren(parent: Node, start: Start, symbol: char) returns (ok: bool, node: Node)
      requires Valid() && symbol != ','
      modifies this
      ensures Reports(DecodeChildren(parent, data, old(costLen), start, symbol), ok, node)
      decreases |data| - costLen, 3
    {
      hide Decode, SkipSpace, Attach;
      ok, node := true, parent;
      ghost var r := DecodeChildren(parent, data, costLen, start, symbol);
      while true
        invariant old(costLen) <= costLen && Valid()
        invariant r == DecodeChildren(node, data, costLen, start, symbol)
        decreases |data| - costLen
      {
        var child;
        ok, child := DecodeNode(start);
        if !ok {
          return;
        }
        ok := SkipWhite();
        if !ok {
          return;
        }
        node := Attach(node, child);
        if data[costLen] == symbol {
          costLen := costLen + 1;
          return true, node;
        } else if data[costLen] == ',' {
          costLen := costLen + 1;
        } else {
          return false, node;
        }
      }
    }
  }

  /** `string &data` of the printer. */
  class Printer {
    var data: string

    constructor ()
      ensures data == ""
    {
      data := "";
    }

    method Append(t: string)
      modifies this
      ensures data == old(data) + t
    {
      data := data + t;
    }

    method Print(node: Node, indent: nat, first: bool)
      modifies this
      ensures data == old(data) + (Separator(first) + Spaces(indent) + Text(node, indent))
      decreases node, 2
    {
      hide ValueText, Spaces;
      ghost var start := data;
      if !first {
        Append(",\n");
      }
      Append(Spaces(indent));
      if node.key != "" {
        Append("\"");
        Append(node.key);
        Append("\": ");
      }
      ghost var before := data;
      assert before == start + (Separator(first) + Spaces(indent) + KeyText(node));
      PrintValue(node, indent);
      assert data == start + (Separator(first) + Spaces(indent) + Text(node, indent));
    }

    method PrintValue(node: Node, indent: nat)
      modifies this
      ensures data == old(data) + ValueText(node, indent)
      decreases node, 1
    {
      hide Lines, Spaces;
      ghost var start := data;
      match node.typ
      case TString =>
        Append("\"");
        Append(node.value);
        Append("\"");
      case TObject =>
        Append("{\n");
        PrintChildren(node.kv, indent + 4);
        Append("\n");
        Append(Spaces(indent));
        Append("}");
        assert data == start + ValueText(node, indent);
      case TArray =>
        Append("[\n");
        PrintChildren(node.arr, indent + 4);
        Append("\n");
        Append(Spaces(indent));
        Append("]");
        assert data == start + ValueText(node, indent);
      case _ => Append(node.value);
    }

    method PrintChildren(ns: seq<Node>, indent: nat)
      modifies this
      ensures data == old(data) + Lines(ns, |ns|, indent)
      decreases ns, 0
    {
      hide Text, Spaces;
      var first := true;
      for i := 0 to |ns|
        invariant data == old(data) + Lines(ns, i, indent) && first == (i == 0)
      {
        Print(ns[i], indent, first);
        first := false;
        assert Lines(ns, i + 1, indent)
            == Lines(ns, i, indent) + (Separator(i == 0) + Spaces(indent) + Text(ns[i], indent));
      }
    }
  }
}
