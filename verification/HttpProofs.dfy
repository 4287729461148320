/** What Include/http/hpp/http_client.hpp makes of a printed response, however it is cut into fragments. */
module HttpProofs {
  import opened Buffers
  import opened Strings
  import opened Wrappers
  import opened Http

  const CRLF := "\r\n"
  const END := "\r\n\r\n"

  // ---------------------------------------------------------------- well-formed responses

  predicate PlainChar(c: char) { c != '\r' && c != '\n' && c != '\0' }

  /** Text that keeps to one line. */
  predicate Plain(s: string) { forall i :: 0 <= i < |s| ==> PlainChar(s[i]) }

  predicate NoBlank(s: string) { forall i :: 0 <= i < |s| ==> s[i] != ' ' }

  predicate NoSeparator(s: string) { forall i :: 0 <= i < |s| - 1 ==> !(s[i] == ':' && s[i + 1] == ' ') }

  /** A field that survives being written as one header line. */
  predicate FieldOk(e: Entry) { Plain(e.key) && Plain(e.value) && NoSeparator(e.key) }

  predicate FieldsOk(es: seq<Entry>) { forall i :: 0 <= i < |es| ==> FieldOk(es[i]) }

  /** A field the client does not act on. */
  predicate Inert(e: Entry) {
    e.key != "Content-Length" && !(e.key == "Transfer-Encoding" && e.value == "chunked")
  }

  predicate HeaderOk(r: Response) {
    && r.version != "" && Plain(r.version) && NoBlank(r.version)
    && r.statusCode < 0x1_0000
    && FieldsOk(r.entries)
    && |r.body| < 0x8000_0000_0000_0000
  }

  predicate WellFormed(r: Response) {
    HeaderOk(r) && forall i :: 0 <= i < |r.entries| ==> Inert(r.entries[i])
  }

  /** The text `response::encode` prints. */
  function Wire(r: Response): string { HeaderBlock(r) + r.body }

  // ---------------------------------------------------------------- searching

  lemma {:induction false} FirstOccurrence(d: string, p: nat, t: string, q: nat)
    requires p <= q && At(d, q, t)
    requires forall k :: p <= k < q ==> !At(d, k, t)
    ensures Find(d, p, t) == Some(q)
    ensures (forall k :: p <= k < q ==> d[k] != '\0') ==> StrStr(d, p, t) == Some(q)
    decreases q - p
  {
    if p < q { FirstOccurrence(d, p + 1, t, q); }
  }

  lemma Mismatch(d: string, p: nat, t: string, i: nat)
    requires i < |t| && p + i < |d| && d[p + i] != t[i]
    ensures !At(d, p, t)
  {
    if At(d, p, t) { ElementAt(d, p, t, i); }
  }

  /** Text without the first letter of the separator in front of it: the separator is found right behind. */
  lemma FoundBehind(d: string, p: nat, x: string, t: string)
    requires At(d, p, x) && At(d, p + |x|, t) && t != ""
    requires forall i :: 0 <= i < |x| ==> x[i] != t[0] && x[i] != '\0'
    ensures StrStr(d, p, t) == Some(p + |x|)
  {
    forall k | p <= k < p + |x| ensures !At(d, k, t) && d[k] != '\0' {
      ElementAt(d, p, x, k - p);
      Mismatch(d, k, t, 0);
    }
    FirstOccurrence(d, p, t, p + |x|);
  }

  lemma KeyEnds(d: string, p: nat, key: string)
    requires At(d, p, key) && At(d, p + |key|, ": ") && Plain(key) && NoSeparator(key)
    ensures StrStr(d, p, ": ") == Some(p + |key|)
  {
    forall k | p <= k < p + |key| ensures !At(d, k, ": ") && d[k] != '\0' {
      var i := k - p;
      ElementAt(d, p, key, i);
      if i + 1 < |key| {
        ElementAt(d, p, key, i + 1);
        if key[i] != ':' { Mismatch(d, k, ": ", 0); } else { Mismatch(d, k, ": ", 1); }
      } else {
        ElementAt(d, p + |key|, ": ", 0);
        Mismatch(d, k, ": ", 1);
      }
    }
    FirstOccurrence(d, p, ": ", p + |key|);
  }

  /** Overwriting a byte in front does not disturb the text behind. */
  lemma AtUpdate(d: string, z: nat, c: char, p: nat, t: string)
    requires z < p && z < |d| && At(d, p, t)
    ensures At(d[z := c], p, t)
  {
    assert d[z := c][p..p + |t|] == d[p..p + |t|];
  }

  // ---------------------------------------------------------------- numbers

  lemma {:induction false} DigitsPrefix(a: string, b: string, acc: nat)
    requires forall i :: 0 <= i < |a| ==> IsDigit(a[i])
    ensures LeadingDigits(a + b, acc) == LeadingDigits(b, LeadingDigits(a, acc))
    decreases |a|
  {
    if a == "" {
      assert a + b == b;
    } else {
      assert (a + b)[1..] == a[1..] + b;
      DigitsPrefix(a[1..], b, 10 * acc + DigitValue(a[0]));
    }
  }

  lemma {:induction false} DecimalValue(n: nat)
    ensures LeadingDigits(Decimal(n), 0) == n
  {
    if n >= 10 {
      DecimalValue(n / 10);
      var last := [DigitChar(n % 10)];
      DigitsPrefix(Decimal(n / 10), last, 0);
      assert last[1..] == "";
    } else {
      assert Decimal(n)[1..] == "";
    }
  }

  /** `atoi` and `atoll` read back what was printed. */
  lemma AtoiUndoesDecimal(n: nat)
    ensures Atoi(Decimal(n)) == n && Plain(Decimal(n)) && NoBlank(Decimal(n))
  {
    DecimalValue(n);
    assert IsDigit(Decimal(n)[0]);
  }

  // ---------------------------------------------------------------- header lines

  predicate LinesOk(ls: seq<string>) { forall i :: 0 <= i < |ls| ==> ls[i] != "" && Plain(ls[i]) }

  /** The blank line ends the header block and stands nowhere else in it. */
  lemma {:induction false} EndIsLast(ls: seq<string>, k: nat)
    requires LinesOk(ls) && k != |Join(ls)| - 2
    ensures !At(Join(ls) + CRLF, k, END)
    decreases |ls|
  {
    var s := Join(ls) + CRLF;
    if ls != [] && k + 4 <= |s| {
      var l, rest := ls[0], ls[1..];
      var tail := Join(rest) + CRLF;
      assert s == l + CRLF + tail;
      if k < |l| {
        assert s[k] == l[k];
        Mismatch(s, k, END, 0);
      } else if k == |l| {
        assert s[k + 2] == tail[0];
        assert rest != [];
        assert tail[0] == rest[0][0];
        Mismatch(s, k, END, 2);
      } else if k == |l| + 1 {
        assert s[k] == '\n';
        Mismatch(s, k, END, 0);
      } else {
        var j := k - |l| - 2;
        EndIsLast(rest, j);
        assert s[k..k + 4] == tail[j..j + 4];
      }
    }
  }

  lemma {:induction false} NoNul(ls: seq<string>)
    requires LinesOk(ls)
    ensures '\0' !in Join(ls)
  {
    if ls != [] {
      NoNul(ls[1..]);
      assert '\0' !in ls[0];
    }
  }

  function Lines(r: Response): seq<string> { [StatusLine(r)] + EntryLines(Fields(r)) }

  lemma {:induction false} EntryLinesOk(es: seq<Entry>)
    requires FieldsOk(es)
    ensures LinesOk(EntryLines(es))
    decreases |es|
  {
    if es != [] {
      EntryLinesOk(es[1..]);
      assert FieldOk(es[0]);
    }
  }

  lemma FieldsAreOk(r: Response)
    requires HeaderOk(r)
    ensures FieldsOk(Fields(r))
  {
    AtoiUndoesDecimal(|r.body|);
  }

  lemma HeaderLinesOk(r: Response)
    requires HeaderOk(r)
    ensures LinesOk(Lines(r))
  {
    hide Decimal, StatusDesc;
    FieldsAreOk(r);
    EntryLinesOk(Fields(r));
    AtoiUndoesDecimal(r.statusCode);
    assert Plain(StatusLine(r));
  }

  /** Where the blank line is, in every buffer that starts with the header block. */
  lemma HeaderEnd(r: Response, d: string)
    requires HeaderOk(r) && At(d, 0, HeaderBlock(r))
    ensures |HeaderBlock(r)| >= 4
    ensures Find(d, 0, END) == StrStr(d, 0, END) == Some(|HeaderBlock(r)| - 4)
  {
    hide StatusLine, EntryLines, Fields;
    var ls := Lines(r);
    HeaderLinesOk(r);
    NoNul(ls);
    var h := HeaderBlock(r);
    LastLine(ls);
    var q := |h| - 4;
    forall k | 0 <= k < q ensures !At(d, k, END) && d[k] != '\0' {
      ElementAt(d, 0, h, k);
      EndIsLast(ls, k);
      assert h[k..k + 4] == d[k..k + 4];
    }
    assert d[q..q + 4] == h[q..q + 4];
    FirstOccurrence(d, 0, END, q);
  }

  lemma {:induction false} LastLine(ls: seq<string>)
    requires ls != []
    ensures |Join(ls)| >= 2 && Join(ls)[|Join(ls)| - 2..] == CRLF
    decreases |ls|
  {
    if |ls| > 1 {
      LastLine(ls[1..]);
      var t := Join(ls[1..]);
      assert Join(ls)[|Join(ls)| - 2..] == t[|t| - 2..];
    } else {
      assert ls[1..] == [];
      assert Join(ls) == ls[0] + CRLF;
    }
  }

  /** A buffer that holds only part of the header block holds no blank line. */
  lemma HeaderMissing(r: Response, m: nat)
    requires HeaderOk(r) && m < |HeaderBlock(r)|
    ensures Find(HeaderBlock(r)[..m], 0, END) == None
  {
    hide StatusLine, EntryLines, Fields;
    var h := HeaderBlock(r);
    HeaderLinesOk(r);
    forall k: nat | k <= m ensures !At(h[..m], k, END) {
      if k + 4 <= m {
        EndIsLast(Lines(r), k);
        assert h[k..k + 4] == h[..m][k..k + 4];
      }
    }
  }

  // ---------------------------------------------------------------- reading the fields back

  function AddFields(r: Response, es: seq<Entry>): Response
    decreases |es|
  {
    if es == [] then r else AddFields(AddField(r, es[0].key, es[0].value), es[1..])
  }

  /** One header line is cut where it was joined. */
  lemma FieldReadsBack(d: string, p: nat, e: Entry, rest: string)
    requires FieldOk(e) && At(d, p, EntryLine(e) + (CRLF + rest))
    ensures var c, n := p + |e.key|, p + |EntryLine(e)|;
            && StrStr(d, p, ": ") == Some(c) && At(d, p, e.key)
            && StrStr(d, c + 2, CRLF) == Some(n) && At(d, c + 2, e.value)
            && At(d, n + 2, rest)
  {
    hide StrStr, At;
    var c, n := p + |e.key|, p + |EntryLine(e)|;
    Split(d, p, EntryLine(e), CRLF + rest);
    Split(d, n, CRLF, rest);
    assert EntryLine(e) == e.key + (": " + e.value);
    Split(d, p, e.key, ": " + e.value);
    Split(d, c, ": ", e.value);
    KeyEnds(d, p, e.key);
    FoundBehind(d, c + 2, e.value, CRLF);
  }

  lemma {:induction false} FieldsReadBack(r: Response, d: string, p: nat, es: seq<Entry>)
    requires FieldsOk(es) && At(d, p, Join(EntryLines(es)))
    ensures DecodeFields(r, d, p, p + |Join(EntryLines(es))|) == Some(AddFields(r, es))
    decreases |es|
  {
    hide AddField, EntryLine, StrStr, FieldOk;
    var text := Join(EntryLines(es));
    if es != [] {
      var e, rest := es[0], Join(EntryLines(es[1..]));
      assert EntryLines(es)[1..] == EntryLines(es[1..]);
      assert text == EntryLine(e) + (CRLF + rest);
      FieldReadsBack(d, p, e, rest);
      LineLength(e);
      FieldsReadBack(AddField(r, e.key, e.value), d, p + |EntryLine(e)| + 2, es[1..]);
    }
  }

  lemma LineLength(e: Entry)
    ensures |EntryLine(e)| == |e.key| + 2 + |e.value|
  {
  }

  lemma {:induction false} InertFieldsAreKept(r: Response, es: seq<Entry>, last: seq<Entry>)
    requires forall i :: 0 <= i < |es| ==> Inert(es[i])
    ensures AddFields(r, es + last) == AddFields(r.(entries := r.entries + es), last)
    decreases |es|
  {
    if es == [] {
      assert es + last == last && r.entries + es == r.entries;
    } else {
      var r' := AddField(r, es[0].key, es[0].value);
      assert (es + last)[1..] == es[1..] + last;
      assert r.entries + [es[0]] + es[1..] == r.entries + es;
      InertFieldsAreKept(r', es[1..], last);
    }
  }

  // ---------------------------------------------------------------- the whole header

  /** Where `decode_header` writes its NUL. */
  function Mark(r: Response): nat { |r.version| + 1 + |Decimal(r.statusCode)| }

  function Marked(r: Response, d: string): string { if Mark(r) < |d| then d[Mark(r) := '\0'] else d }

  /** What a fresh client has parsed from the header block. */
  function Parsed(r: Response): Response {
    AddFields(
      FRESH.(version := r.version, statusCode := r.statusCode, statusDesc := StatusDesc(r.statusCode)), Fields(r))
  }

  lemma ParsedPlainly(r: Response)
    requires WellFormed(r)
    ensures Parsed(r) ==
      Response(r.version, r.statusCode, StatusDesc(r.statusCode), r.entries, |r.body|, false, "")
  {
    hide StatusDesc;
    var r0 := FRESH.(version := r.version, statusCode := r.statusCode, statusDesc := StatusDesc(r.statusCode));
    var last := if r.body != "" then [Entry("Content-Length", Decimal(|r.body|))] else [];
    InertFieldsAreKept(r0, r.entries, last);
    assert r0.entries + r.entries == r.entries;
    AtoiUndoesDecimal(|r.body|);
    if r.body != "" { assert last[1..] == []; }
  }

  lemma StatusLineParts(r: Response, d: string, rest: string)
    requires At(d, 0, StatusLine(r) + (CRLF + rest))
    ensures var v, s := |r.version|, Mark(r);
            && At(d, 0, r.version) && At(d, v, " ") && At(d, v + 1, Decimal(r.statusCode)) && At(d, s, " ")
            && At(d, s + 1, StatusDesc(r.statusCode) + (CRLF + rest))
            && |StatusLine(r)| == s + 1 + |StatusDesc(r.statusCode)|
  {
    hide Decimal, StatusDesc, At;
    var code, desc := Decimal(r.statusCode), StatusDesc(r.statusCode);
    var tail := desc + (CRLF + rest);
    assert StatusLine(r) + (CRLF + rest) == r.version + (" " + (code + (" " + tail)));
    Split(d, 0, r.version, " " + (code + (" " + tail)));
    Split(d, |r.version|, " ", code + (" " + tail));
    Split(d, |r.version| + 1, code, " " + tail);
    Split(d, Mark(r), " ", tail);
  }

  lemma BlankBehind(d: string, p: nat, x: string)
    requires At(d, p, x) && At(d, p + |x|, " ") && Plain(x) && NoBlank(x)
    ensures p + |x| < |d| && StrStr(d, p, " ") == Some(p + |x|)
  {
    FoundBehind(d, p, x, " ");
  }

  lemma StatusLineReadsBack(r: Response, d: string, rest: string)
    requires HeaderOk(r) && At(d, 0, StatusLine(r) + (CRLF + rest))
    ensures var v, s, e := |r.version|, Mark(r), |StatusLine(r)|;
            && StrStr(d, 0, " ") == Some(v) && At(d, 0, r.version)
            && StrStr(d, v + 1, " ") == Some(s) && At(d, v + 1, Decimal(r.statusCode)) && s < |d|
            && StrStr(Marked(r, d), s + 1, CRLF) == Some(e)
            && e == s + 1 + |StatusDesc(r.statusCode)| && At(Marked(r, d), s + 1, StatusDesc(r.statusCode))
            && At(Marked(r, d), e + 2, rest)
  {
    hide Decimal, StatusDesc, StrStr, StatusLine, Plain, NoBlank, At, Marked, FieldsOk;
    AtoiUndoesDecimal(r.statusCode);
    StatusLineParts(r, d, rest);
    BlankBehind(d, 0, r.version);
    BlankBehind(d, |r.version| + 1, Decimal(r.statusCode));
    DescReadsBack(r, d, rest);
  }

  lemma DescReadsBack(r: Response, d: string, rest: string)
    requires At(d, 0, StatusLine(r) + (CRLF + rest))
    ensures var s, e := Mark(r), |StatusLine(r)|;
            && StrStr(Marked(r, d), s + 1, CRLF) == Some(e) && At(Marked(r, d), s + 1, StatusDesc(r.statusCode))
            && At(Marked(r, d), e + 2, rest)
  {
    var desc, s := StatusDesc(r.statusCode), Mark(r);
    hide Decimal, StatusDesc, StrStr, StatusLine;
    StatusLineParts(r, d, rest);
    AtUpdate(d, s, '\0', s + 1, desc + (CRLF + rest));
    var d' := Marked(r, d);
    hide Marked;
    Split(d', s + 1, desc, CRLF + rest);
    Split(d', s + 1 + |desc|, CRLF, rest);
    assert Plain(desc);
    hide Plain, At, Mark;
    FoundBehind(d', s + 1, desc, CRLF);
  }

  lemma HeaderShape(r: Response)
    ensures HeaderBlock(r) == StatusLine(r) + (CRLF + Join(EntryLines(Fields(r)))) + CRLF
  {
    hide StatusLine, EntryLines, Fields;
    assert Lines(r)[1..] == EntryLines(Fields(r));
  }

  /** `decode_header` reads a printed header block back, whatever follows it in the buffer. */
  lemma HeaderReadsBack(r: Response, d: string)
    requires HeaderOk(r) && At(d, 0, HeaderBlock(r))
    ensures DecodeHeader(FRESH, d, 0) == Some((Parsed(r), Marked(r, d)))
  {
    hide StatusLine, Decimal, StatusDesc, AddFields, DecodeFields, Fields, EntryLines, Join, StrStr, Find;
    HeaderEnd(r, d);
    HeaderShape(r);
    FieldsAreOk(r);
    var fields := Join(EntryLines(Fields(r)));
    var r0 := FRESH.(version := r.version, statusCode := r.statusCode, statusDesc := StatusDesc(r.statusCode));
    assert Atoi(Decimal(r.statusCode)) % 0x1_0000 == r.statusCode by { AtoiUndoesDecimal(r.statusCode); }
    hide HeaderBlock, HeaderOk, Atoi;
    Split(d, 0, StatusLine(r) + (CRLF + fields), CRLF);
    StatusLineReadsBack(r, d, fields);
    var d', e := Marked(r, d), |StatusLine(r)|;
    FieldsReadBack(r0, d', e + 2, Fields(r));
    assert |HeaderBlock(r)| == e + 2 + |fields| + 2;
    assert d[0..|r.version|] == r.version && d[|r.version| + 1..Mark(r)] == Decimal(r.statusCode);
    assert d'[Mark(r) + 1..e] == StatusDesc(r.statusCode);
    assert d' == d[Mark(r) := '\0'];
    hide At, Marked;
  }
}
