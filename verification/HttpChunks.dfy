/** Chunked bodies, sections 4.1 and 4.1.1 of RFC 7230, as Include/http/hpp/http_client.hpp reads them. */
module HttpChunks {
  import opened Buffers
  import opened Strings
  import opened Wrappers
  import opened Http
  import opened HttpProofs
  import opened HttpDelivery

  // ---------------------------------------------------------------- hexadecimal

  predicate IsHex(c: char) { IsDigit(c) || 'a' <= c <= 'f' || 'A' <= c <= 'F' }

  predicate AllHex(s: string) { forall i :: 0 <= i < |s| ==> IsHex(s[i]) }

  /** The number a hexadecimal numeral denotes, by position. */
  function HexValue(s: string): nat
    requires AllHex(s)
  {
    if s == "" then 0 else 16 * HexValue(s[..|s| - 1]) + HexDigit(s[|s| - 1])
  }

  function HexChar(n: nat, upper: bool): (c: char)
    requires n < 16
    ensures IsHex(c) && HexDigit(c) == n
  {
    if n < 10 then DigitChar(n) else ((if upper then 'A' else 'a') as int + (n - 10)) as char
  }

  /** Hexadecimal printing. */
  function HexText(n: nat, upper: bool): (s: string)
    ensures s != "" && AllHex(s)
  {
    if n < 16 then [HexChar(n, upper)] else HexText(n / 16, upper) + [HexChar(n % 16, upper)]
  }

  lemma {:induction false} HexTextValue(n: nat, upper: bool)
    ensures HexValue(HexText(n, upper)) == n
  {
    var s := HexText(n, upper);
    if n >= 16 {
      HexTextValue(n / 16, upper);
      assert s[..|s| - 1] == HexText(n / 16, upper);
    } else {
      assert s[..|s| - 1] == "";
    }
  }

  lemma {:induction false} HexRunAppend(a: string, b: string, n: nat)
    requires AllHex(a)
    ensures HexRun(a + b, n) == HexRun(b, HexRun(a, n))
    decreases |a|
  {
    if a == "" {
      assert a + b == b;
    } else {
      assert (a + b)[1..] == a[1..] + b && IsHex(a[0]);
      HexRunAppend(a[1..], b, 16 * n + HexDigit(a[0]));
    }
  }

  lemma {:induction false} HexRunValue(s: string)
    requires AllHex(s)
    ensures HexRun(s, 0) == HexValue(s)
    decreases |s|
  {
    if s != "" {
      var k := |s| - 1;
      HexRunValue(s[..k]);
      HexRunAppend(s[..k], s[k..], 0);
      assert s == s[..k] + s[k..] && s[k..][1..] == "" && IsHex(s[k]);
    }
  }

  /** The text behind a size that `htoi` leaves alone. */
  predicate Ext(s: string) { (s == "" || !IsAlnum(s[0])) && '\r' !in s }

  /** `htoi` reads the number of every numeral, in either case, with leading zeros and whatever extension follows. */
  lemma HtoiReadsHex(s: string, ext: string)
    requires s != "" && AllHex(s) && Ext(ext)
    ensures Htoi(s + ext) == HexValue(s)
    ensures Htoi("0x" + s + ext) == HexValue(s) && Htoi("0X" + s + ext) == HexValue(s)
  {
    hide HexValue;
    HexRunAppend(s, ext, 0);
    HexRunValue(s);
    assert HexRun(s + ext, 0) == HexValue(s);
    hide HexRun;
    var t := s + ext;
    assert t[0] == s[0];
    if |t| >= 2 {
      assert t[1] == if |s| >= 2 then s[1] else ext[0];
    }
    assert ("0x" + s + ext)[2..] == t && ("0X" + s + ext)[2..] == t;
  }

  /** `htoi` undoes hexadecimal printing. */
  lemma HtoiUndoesPrinting(n: nat, upper: bool)
    ensures Htoi(HexText(n, upper)) == n
  {
    HexTextValue(n, upper);
    HtoiReadsHex(HexText(n, upper), "");
    assert HexText(n, upper) + "" == HexText(n, upper);
  }

  // ---------------------------------------------------------------- the coding

  datatype Chunk = Chunk(size: string, ext: string, data: string)

  /** A chunk whose size line tells the length of its data; a length fits an `int`. */
  predicate ChunkOk(c: Chunk) {
    c.size != "" && AllHex(c.size) && Ext(c.ext) && HexValue(c.size) == |c.data| < 0x8000_0000
  }

  predicate ChunksOk(cs: seq<Chunk>) { forall i :: 0 <= i < |cs| ==> ChunkOk(cs[i]) && cs[i].data != "" }

  predicate LastOk(z: Chunk) { ChunkOk(z) && z.data == "" }

  function SizeLine(c: Chunk): string { c.size + c.ext + CRLF }

  function ChunkText(c: Chunk): string { SizeLine(c) + (c.data + CRLF) }

  /** The chunks and the last, empty one. */
  function Coding(cs: seq<Chunk>, z: Chunk): string {
    if cs == [] then ChunkText(z) else ChunkText(cs[0]) + Coding(cs[1..], z)
  }

  function Bodies(cs: seq<Chunk>): string {
    if cs == [] then "" else cs[0].data + Bodies(cs[1..])
  }

  lemma SizeLineReadsBack(d: string, p: nat, c: Chunk)
    requires ChunkOk(c) && At(d, p, SizeLine(c))
    ensures var f := p + |c.size| + |c.ext|;
            Find(d, p, CRLF) == Some(f) && Htoi(d[p..f]) == |c.data| && p + |SizeLine(c)| == f + 2
  {
    var line := c.size + c.ext;
    Split(d, p, line, CRLF);
    HtoiReadsHex(c.size, c.ext);
    hide HexValue, Htoi, Find;
    forall k | p <= k < p + |line| ensures !At(d, k, CRLF) {
      ElementAt(d, p, line, k - p);
      assert line[k - p] == if k - p < |c.size| then c.size[k - p] else c.ext[k - p - |c.size|];
      Mismatch(d, k, CRLF, 0);
    }
    FirstOccurrence(d, p, CRLF, p + |line|);
  }

  /** One turn of the chunk loop takes exactly one chunk. */
  lemma ChunkReadsBack(d: string, p: nat, acc: string, c: Chunk)
    requires ChunkOk(c) && At(d, p, ChunkText(c))
    ensures Chunks(d, p, acc) ==
      if c.data == "" then ChunksDone(acc, p + |ChunkText(c)|) else Chunks(d, p + |ChunkText(c)|, acc + c.data)
  {
    hide Htoi, Find, ChunkOk, SizeLine;
    var f := p + |SizeLine(c)| - 2;
    Split(d, p, SizeLine(c), c.data + CRLF);
    Split(d, f + 2, c.data, CRLF);
    SizeLineReadsBack(d, p, c);
    assert d[f + 2..f + 2 + |c.data|] == c.data;
  }

  /** The whole coding in the buffer: all data, even data with CRLF in it, and the position right behind. */
  lemma {:induction false} ChunksReadBack(d: string, p: nat, acc: string, cs: seq<Chunk>, z: Chunk)
    requires ChunksOk(cs) && LastOk(z) && At(d, p, Coding(cs, z))
    ensures Chunks(d, p, acc) == ChunksDone(acc + Bodies(cs), p + |Coding(cs, z)|)
    decreases |cs|
  {
    hide Chunks, ChunkText, ChunkOk, At;
    if cs == [] {
      ChunkReadsBack(d, p, acc, z);
      assert acc + Bodies(cs) == acc;
    } else {
      var c := cs[0];
      assert ChunkOk(c) && c.data != "";
      Split(d, p, ChunkText(c), Coding(cs[1..], z));
      ChunkReadsBack(d, p, acc, c);
      ChunksReadBack(d, p + |ChunkText(c)|, acc + c.data, cs[1..], z);
      assert acc + c.data + Bodies(cs[1..]) == acc + Bodies(cs);
    }
  }

  /** A chunk that is not yet complete: the position moves behind its size line all the same. */
  lemma IncompleteChunkLosesSize(d: string, p: nat, acc: string, c: Chunk)
    requires ChunkOk(c) && c.data != "" && At(d, p, SizeLine(c)) && |d| < p + |ChunkText(c)|
    ensures Chunks(d, p, acc) == ChunksWait(acc, p + |SizeLine(c)|)
  {
    hide Htoi, Find, ChunkOk, SizeLine;
    SizeLineReadsBack(d, p, c);
  }

  // ---------------------------------------------------------------- the client

  /** A response whose header announces a chunked body. */
  predicate Chunked(r: Response) {
    HeaderOk(r) && r.body == "" && Entry("Transfer-Encoding", "chunked") in r.entries
  }

  lemma {:induction false} ChunkedFieldSeen(r: Response, es: seq<Entry>)
    requires r.isChunk || Entry("Transfer-Encoding", "chunked") in es
    ensures AddFields(r, es).isChunk
    decreases |es|
  {
    if es != [] { ChunkedFieldSeen(AddField(r, es[0].key, es[0].value), es[1..]); }
  }

  lemma ParsedIsChunk(r: Response)
    requires Chunked(r)
    ensures Parsed(r).isChunk
  {
    hide AddFields, StatusDesc;
    ChunkedFieldSeen(
      FRESH.(version := r.version, statusCode := r.statusCode, statusDesc := StatusDesc(r.statusCode)), Fields(r));
  }

  /** The client at the body part, the whole coding buffered and anything behind it. */
  lemma CodingTurn(c: Client, cs: seq<Chunk>, z: Chunk)
    requires c.step == AtBody && c.response.isChunk
    requires ChunksOk(cs) && LastOk(z) && At(c.buf, c.pos, Coding(cs, z))
    ensures TurnBody(c)
         == EndBody(c.(response := c.response.(body := Bodies(cs)), pos := c.pos + |Coding(cs, z)|))
  {
    hide Chunks, Coding, Bodies, At, EndBody, ChunksOk, LastOk, Turn;
    ChunksReadBack(c.buf, c.pos, "", cs, z);
    assert "" + Bodies(cs) == Bodies(cs);
  }

  /** Before the first size line is complete nothing is lost. */
  lemma SizeLineWaits(d: string, p: nat, line: string)
    requires p <= |d| && d[p..] <= line + "\r" && '\r' !in line
    ensures Chunks(d, p, "") == ChunksWait("", p)
  {
    forall k | p <= k <= |d| ensures !At(d, k, CRLF) {
      if k + 2 <= |d| {
        assert d[k] == d[p..][k - p] == line[k - p];
        Mismatch(d, k, CRLF, 0);
      }
    }
  }

  function FirstLine(cs: seq<Chunk>, z: Chunk): string {
    var c := if cs == [] then z else cs[0];
    c.size + c.ext
  }

  lemma CodingStarts(cs: seq<Chunk>, z: Chunk)
    requires ChunksOk(cs) && LastOk(z)
    ensures FirstLine(cs, z) + "\r" <= Coding(cs, z) && '\r' !in FirstLine(cs, z)
    ensures |Coding(cs, z)| > |FirstLine(cs, z)| + 1
  {
    hide HexValue, Coding;
    var c := if cs == [] then z else cs[0];
    assert Coding(cs, z) == c.size + c.ext + CRLF + (Coding(cs, z)[|SizeLine(c)|..]) by { CodingFront(cs, z); }
    assert ChunkOk(c);
  }

  lemma CodingFront(cs: seq<Chunk>, z: Chunk)
    ensures SizeLine(if cs == [] then z else cs[0]) <= Coding(cs, z)
  {
    hide SizeLine;
  }

  function ChunkedWire(r: Response, cs: seq<Chunk>, z: Chunk): string { HeaderBlock(r) + Coding(cs, z) }

  function ChunkedReceived(r: Response, cs: seq<Chunk>): Response { Parsed(r).(body := Bodies(cs)) }

  /** The client when the whole chunked response is in. */
  function ChunkedAfter(sync: bool, r: Response, cs: seq<Chunk>, z: Chunk): Client {
    var t := ChunkedWire(r, cs, z);
    if sync then Client(true, Done, Marked(r, t), |t|, ChunkedReceived(r, cs), [])
    else Client(false, AtHeader, "", 0, ChunkedReceived(r, cs), [ChunkedReceived(r, cs)])
  }

  lemma {:induction false} FieldsKeepBody(r: Response, es: seq<Entry>)
    ensures AddFields(r, es).body == r.body
    decreases |es|
  {
    if es != [] { FieldsKeepBody(AddField(r, es[0].key, es[0].value), es[1..]); }
  }

  lemma ParsedHasNoBody(r: Response)
    ensures Parsed(r).body == ""
  {
    hide AddFields, StatusDesc;
    FieldsKeepBody(
      FRESH.(version := r.version, statusCode := r.statusCode, statusDesc := StatusDesc(r.statusCode)), Fields(r));
  }

  lemma MarkedTail(r: Response, a: string, b: string)
    requires Mark(r) < |a|
    ensures Marked(r, a) + b == Marked(r, a + b) && At(Marked(r, a + b), |a|, b) && |Marked(r, a)| == |a|
    ensures forall i :: Mark(r) < i <= |a| ==> Marked(r, a)[i..] == a[i..]
  {
    hide Mark;
  }

  lemma WholeBodyTurn(sync: bool, r: Response, cs: seq<Chunk>, z: Chunk)
    requires Chunked(r) && ChunksOk(cs) && LastOk(z)
    ensures TurnBody(Client(sync, AtBody, Marked(r, ChunkedWire(r, cs, z)), |HeaderBlock(r)|, Parsed(r), []))
         == Outcome(true, ChunkedAfter(sync, r, cs, z))
  {
    ParsedIsChunk(r);
    MarkInHeader(r);
    hide Chunked, HeaderBlock, Coding, Bodies, Parsed, ChunksOk, LastOk, At, Mark;
    var t := ChunkedWire(r, cs, z);
    MarkedTail(r, HeaderBlock(r), Coding(cs, z));
    MarkedLength(r, t);
    var c := Client(sync, AtBody, Marked(r, t), |HeaderBlock(r)|, Parsed(r), []);
    hide Marked, Chunks;
    CodingTurn(c, cs, z);
  }

  /** The client at the body part while the first size line is not complete: nothing moves. */
  lemma SizeLineTurn(sync: bool, r: Response, cs: seq<Chunk>, z: Chunk, m: nat)
    requires Chunked(r) && ChunksOk(cs) && LastOk(z)
    requires |HeaderBlock(r)| <= m < |HeaderBlock(r)| + |FirstLine(cs, z)| + 2
    ensures m < |ChunkedWire(r, cs, z)|
    ensures (var c := Client(sync, AtBody, Marked(r, ChunkedWire(r, cs, z)[..m]), |HeaderBlock(r)|, Parsed(r), []);
             TurnBody(c) == Outcome(true, c))
  {
    CodingStarts(cs, z);
    ParsedIsChunk(r);
    ParsedHasNoBody(r);
    MarkInHeader(r);
    hide Chunked, HeaderBlock, Coding, Parsed, ChunksOk, LastOk, Mark, FirstLine;
    var h, d := |HeaderBlock(r)|, ChunkedWire(r, cs, z)[..m];
    assert d == HeaderBlock(r) + Coding(cs, z)[..m - h];
    MarkedTail(r, HeaderBlock(r), Coding(cs, z)[..m - h]);
    assert Marked(r, d)[h..] == Coding(cs, z)[..m - h];
    hide Marked, Chunks, Turn;
    SizeLineWaits(Marked(r, d), h, FirstLine(cs, z));
    assert Parsed(r).(body := "") == Parsed(r);
  }

  /** In one piece. */
  lemma ChunkedAtOnce(sync: bool, r: Response, cs: seq<Chunk>, z: Chunk)
    requires Chunked(r) && ChunksOk(cs) && LastOk(z)
    ensures Turn(Client(sync, AtHeader, ChunkedWire(r, cs, z), 0, FRESH, []))
         == Outcome(true, ChunkedAfter(sync, r, cs, z))
  {
    assert HeaderOk(r);
    hide Chunked, HeaderBlock, Coding, ChunksOk, LastOk, HeaderOk, Turn, TurnBody, Marked, Parsed, ChunkedAfter;
    WholeBodyTurn(sync, r, cs, z);
    HeaderArrives(sync, r, ChunkedWire(r, cs, z));
  }

  // ---------------------------------------------------------------- a chunk that arrives in parts

  /** Chunk data in the place of a size line ends the body when it starts with anything but a letter or digit. */
  lemma DataAsSize(d: string, p: nat, data: string)
    requires data != "" && !IsAlnum(data[0]) && At(d, p, data + CRLF)
    ensures Chunks(d, p, "").ChunksDone? && Chunks(d, p, "").body == ""
  {
    Split(d, p, data, CRLF);
    ElementAt(d, p, data, 0);
  }

  /** The size line has come but not all of the chunk: the next call takes the data for a size line, and a body
      that starts with anything but a letter or digit is reported empty. */
  lemma IncompleteChunkIsLost(c: Client, k: Chunk, more: string)
    requires c.sync && c.step == AtBody && c.response.isChunk
    requires ChunkOk(k) && k.data != "" && !IsAlnum(k.data[0])
    requires At(c.buf, c.pos, SizeLine(k)) && At(c.buf + more, c.pos, ChunkText(k))
    requires |c.buf| < c.pos + |ChunkText(k)|
    ensures var o := TurnBody(c); o.ok && o.client.step == AtBody && o.client.pos == c.pos + |SizeLine(k)|
    ensures var o := Recv(TurnBody(c).client, more); o.ok && o.client.step == Done && o.client.response.body == ""
  {
    hide Chunks, ChunkOk, SizeLine, DecodeHeader, At, IsAlnum;
    assert |ChunkText(k)| > |SizeLine(k)|;
    assert |c.buf + more| >= c.pos + |ChunkText(k)| by { Bounds(c.buf + more, c.pos, ChunkText(k)); }
    IncompleteChunkLosesSize(c.buf, c.pos, "", k);
    Split(c.buf + more, c.pos, SizeLine(k), k.data + CRLF);
    hide ChunkText;
    DataAsSize(c.buf + more, c.pos + |SizeLine(k)|, k.data);
    var c1 := TurnBody(c).client;
    assert c1.buf == c.buf;
    assert Recv(c1, more) == Turn(c1.(buf := c.buf + more));
    assert Turn(c1.(buf := c.buf + more)) == TurnBody(c1.(buf := c.buf + more));
  }
}
