/** Chunked responses cut into fragments: where the client of Include/http/hpp/http_client.hpp keeps its place, and
    where it does not. */
module HttpChunkedDelivery {
  import opened Buffers
  import opened Strings
  import opened Wrappers
  import opened Http
  import opened HttpProofs
  import opened HttpDelivery
  import opened HttpChunks

  // ---------------------------------------------------------------- cuts before the first size line is complete

  /** How many bytes the client can hold without having read a size line. */
  function Early(r: Response, cs: seq<Chunk>, z: Chunk): nat { |HeaderBlock(r)| + |FirstLine(cs, z)| + 2 }

  /** The client after the first `m` of those bytes. */
  function Before(sync: bool, r: Response, cs: seq<Chunk>, z: Chunk, m: nat): Client
    requires m <= |ChunkedWire(r, cs, z)|
  {
    var seen := ChunkedWire(r, cs, z)[..m];
    if m < |HeaderBlock(r)| then Client(sync, AtHeader, seen, 0, FRESH, [])
    else Client(sync, AtBody, Marked(r, seen), |HeaderBlock(r)|, Parsed(r), [])
  }

  predicate CodingOk(r: Response, cs: seq<Chunk>, z: Chunk) { Chunked(r) && ChunksOk(cs) && LastOk(z) }

  lemma EarlyIsInside(r: Response, cs: seq<Chunk>, z: Chunk)
    requires CodingOk(r, cs, z)
    ensures Early(r, cs, z) <= |ChunkedWire(r, cs, z)| && HeaderOk(r)
    ensures At(ChunkedWire(r, cs, z), 0, HeaderBlock(r))
  {
    CodingStarts(cs, z);
    hide HeaderBlock, Coding;
  }

  /** How text and header lie in a wire that is cut. */
  lemma CutWire(r: Response, cs: seq<Chunk>, z: Chunk, m: nat, n: nat)
    requires m + n <= |ChunkedWire(r, cs, z)|
    ensures (var w := ChunkedWire(r, cs, z);
             && w[..m] + w[m..m + n] == w[..m + n]
             && (m + n < |HeaderBlock(r)| ==> w[..m + n] == HeaderBlock(r)[..m + n])
             && (m + n >= |HeaderBlock(r)| ==> At(w[..m + n], 0, HeaderBlock(r)))
             && (m >= |HeaderBlock(r)| ==> Marked(r, w[..m]) + w[m..m + n] == Marked(r, w[..m + n])))
  {
    MarkInHeader(r);
    hide HeaderBlock, Coding, Mark;
    var w := ChunkedWire(r, cs, z);
    assert w[..m] + w[m..m + n] == w[..m + n];
    if m >= |HeaderBlock(r)| { MarkedTail(r, w[..m], w[m..m + n]); }
  }

  /** The loop on the buffer of the first `m` bytes, wherever the client came from. */
  lemma TurnFrom(sync: bool, r: Response, cs: seq<Chunk>, z: Chunk, m: nat, n: nat)
    requires CodingOk(r, cs, z) && m < Early(r, cs, z) && 0 < n && m + n <= |ChunkedWire(r, cs, z)|
    requires m + n >= |HeaderBlock(r)|
    ensures Recv(Before(sync, r, cs, z, m), ChunkedWire(r, cs, z)[m..m + n])
         == TurnBody(Client(sync, AtBody, Marked(r, ChunkedWire(r, cs, z)[..m + n]), |HeaderBlock(r)|, Parsed(r), []))
  {
    EarlyIsInside(r, cs, z);
    CutWire(r, cs, z, m, n);
    var w, h := ChunkedWire(r, cs, z), |HeaderBlock(r)|;
    hide CodingOk, ChunkedWire, HeaderBlock, Marked, Parsed, HeaderOk, At, Turn, TurnBody, Early;
    if m < h {
      HeaderArrives(sync, r, w[..m + n]);
    } else {
      MarkedLength(r, w[..m + n]);
      BodyArrives(sync, Parsed(r), Marked(r, w[..m + n]), h);
    }
  }

  lemma EarlyHeader(sync: bool, r: Response, cs: seq<Chunk>, z: Chunk, m: nat, n: nat)
    requires HeaderOk(r) && 0 < n && m + n < |HeaderBlock(r)| && m + n < 1024
    requires m + n <= |ChunkedWire(r, cs, z)|
    ensures Recv(Before(sync, r, cs, z, m), ChunkedWire(r, cs, z)[m..m + n])
         == Outcome(true, Before(sync, r, cs, z, m + n))
  {
    hide ChunkedWire, HeaderBlock, HeaderOk, Marked, Parsed, Turn, At;
    CutWire(r, cs, z, m, n);
    StillHeader(sync, r, m + n);
  }

  lemma EarlyFragment(sync: bool, r: Response, cs: seq<Chunk>, z: Chunk, m: nat, n: nat)
    requires CodingOk(r, cs, z) && 0 < n && m + n < Early(r, cs, z) <= |ChunkedWire(r, cs, z)|
    requires m + n < |HeaderBlock(r)| ==> m + n < 1024
    ensures Recv(Before(sync, r, cs, z, m), ChunkedWire(r, cs, z)[m..m + n])
         == Outcome(true, Before(sync, r, cs, z, m + n))
  {
    hide ChunkedWire, HeaderBlock, Recv, TurnBody, Marked, Parsed, FirstLine, HeaderOk, ChunksOk, LastOk, Chunked;
    if m + n < |HeaderBlock(r)| {
      EarlyIsInside(r, cs, z);
      EarlyHeader(sync, r, cs, z, m, n);
    } else {
      TurnFrom(sync, r, cs, z, m, n);
      SizeLineTurn(sync, r, cs, z, m + n);
    }
  }

  /** Every cut stands before the end of the first size line, and no cut in the header at or behind 1024 bytes. */
  predicate CutsEarly(r: Response, cs: seq<Chunk>, z: Chunk, frags: seq<string>) {
    forall k :: 0 < k < |frags| ==> EarlyCut(r, cs, z, |Concat(frags[..k])|)
  }

  predicate EarlyCut(r: Response, cs: seq<Chunk>, z: Chunk, m: nat) {
    m < Early(r, cs, z) && (m < |HeaderBlock(r)| ==> m < 1024)
  }

  lemma NothingBefore(sync: bool, r: Response, cs: seq<Chunk>, z: Chunk)
    ensures Before(sync, r, cs, z, 0) == FreshClient(sync)
  {
    MarkInHeader(r);
    hide HeaderBlock, Marked;
  }

  lemma {:induction false} EarlyFragments(sync: bool, r: Response, cs: seq<Chunk>, z: Chunk, frags: seq<string>)
    requires CodingOk(r, cs, z) && Concat(frags) <= ChunkedWire(r, cs, z)
    requires forall i :: 0 <= i < |frags| ==> frags[i] != ""
    requires forall k :: 0 < k <= |frags| ==> EarlyCut(r, cs, z, |Concat(frags[..k])|)
    ensures Feed(FreshClient(sync), frags) == Outcome(true, Before(sync, r, cs, z, |Concat(frags)|))
    decreases |frags|
  {
    hide CodingOk, ChunkedWire, Recv, Before, FreshClient;
    if frags == [] {
      NothingBefore(sync, r, cs, z);
    } else {
      var k := |frags| - 1;
      EarlyIsInside(r, cs, z);
      assert frags[..|frags|] == frags;
      assert EarlyCut(r, cs, z, |Concat(frags)|);
      forall j | 0 < j <= k ensures EarlyCut(r, cs, z, |Concat(frags[..k][..j])|) {
        assert frags[..k][..j] == frags[..j];
      }
      LastFragment(frags, ChunkedWire(r, cs, z));
      hide Concat, HeaderBlock;
      EarlyFragments(sync, r, cs, z, frags[..k]);
      EarlyFragment(sync, r, cs, z, |Concat(frags[..k])|, |frags[k]|);
    }
  }

  /** A chunked response is read whole by a client of either mode, in any number of fragments, as long as every cut
      stands before the end of the first size line. */
  lemma ChunkedDelivered(sync: bool, r: Response, cs: seq<Chunk>, z: Chunk, frags: seq<string>)
    requires CodingOk(r, cs, z) && Splits(frags, ChunkedWire(r, cs, z)) && CutsEarly(r, cs, z, frags)
    ensures Feed(FreshClient(sync), frags) == Outcome(true, ChunkedAfter(sync, r, cs, z))
  {
    hide CodingOk, ChunkedWire, Recv, Before, FreshClient, ChunkedAfter, EarlyCut, Early;
    WireIsNotEmpty(r, cs, z);
    var w, k := ChunkedWire(r, cs, z), |frags| - 1;
    LastFragment(frags, w);
    forall j | 0 < j <= k ensures EarlyCut(r, cs, z, |Concat(frags[..k][..j])|) {
      assert frags[..k][..j] == frags[..j];
    }
    var m := |Concat(frags[..k])|;
    assert k > 0 ==> EarlyCut(r, cs, z, m);
    hide Concat, HeaderBlock;
    EarlyFragments(sync, r, cs, z, frags[..k]);
    if k == 0 { assert m == 0 by { NoFragments(frags[..k]); } }
    LastPart(sync, r, cs, z, m);
    assert w[m..m + |frags[k]|] == w[m..];
  }

  lemma NoFragments(frags: seq<string>)
    requires frags == []
    ensures Concat(frags) == ""
  {
  }

  lemma WireIsNotEmpty(r: Response, cs: seq<Chunk>, z: Chunk)
    ensures ChunkedWire(r, cs, z) != ""
  {
    MarkInHeader(r);
    hide HeaderBlock;
  }

  lemma LastPart(sync: bool, r: Response, cs: seq<Chunk>, z: Chunk, m: nat)
    requires CodingOk(r, cs, z) && (m == 0 || EarlyCut(r, cs, z, m)) && m < |ChunkedWire(r, cs, z)|
    ensures Recv(Before(sync, r, cs, z, m), ChunkedWire(r, cs, z)[m..]) == Outcome(true, ChunkedAfter(sync, r, cs, z))
  {
    var w := ChunkedWire(r, cs, z);
    EarlyIsInside(r, cs, z);
    WholeBodyTurn(sync, r, cs, z);
    TurnFrom(sync, r, cs, z, m, |w| - m);
    hide CodingOk, ChunkedWire, HeaderBlock, Recv, TurnBody, Marked, Parsed, Before, ChunkedAfter, Early;
    assert w[m..m + (|w| - m)] == w[m..] && w[..|w|] == w;
  }

  // ---------------------------------------------------------------- cuts further behind

  /** The text of chunks that are complete. */
  function Texts(cs: seq<Chunk>): string {
    if cs == [] then "" else ChunkText(cs[0]) + Texts(cs[1..])
  }

  lemma {:induction false} CodingParts(cs: seq<Chunk>, z: Chunk, j: nat)
    requires j <= |cs|
    ensures Coding(cs, z) == Texts(cs[..j]) + Coding(cs[j..], z)
    ensures Bodies(cs) == Bodies(cs[..j]) + Bodies(cs[j..])
    decreases j
  {
    hide ChunkText;
    if j > 0 {
      CodingParts(cs[1..], z, j - 1);
      assert cs[..j][1..] == cs[1..][..j - 1] && cs[j..] == cs[1..][j - 1..];
    } else {
      assert cs[0..] == cs;
    }
  }

  lemma NothingLeft(d: string, acc: string)
    ensures Chunks(d, |d|, acc) == ChunksWait(acc, |d|)
  {
    hide Htoi;
  }

  /** The buffer ends behind complete chunks: they are taken, and the position is at the end. */
  lemma {:induction false} ChunksBeforeEnd(d: string, p: nat, acc: string, cs: seq<Chunk>)
    requires ChunksOk(cs) && At(d, p, Texts(cs)) && p + |Texts(cs)| == |d|
    ensures Chunks(d, p, acc) == ChunksWait(acc + Bodies(cs), |d|)
    decreases |cs|
  {
    hide Chunks, ChunkText, ChunkOk, At;
    if cs == [] {
      NothingLeft(d, acc);
      assert acc + "" == acc;
    } else {
      var c := cs[0];
      assert ChunkOk(c) && c.data != "";
      Split(d, p, ChunkText(c), Texts(cs[1..]));
      ChunkReadsBack(d, p, acc, c);
      ChunksBeforeEnd(d, p + |ChunkText(c)|, acc + c.data, cs[1..]);
      assert acc + c.data + Bodies(cs[1..]) == acc + Bodies(cs);
    }
  }

  lemma LastSizeLine(d: string, p: nat, acc: string, z: Chunk)
    requires LastOk(z) && At(d, p, SizeLine(z))
    ensures Chunks(d, p, acc) == ChunksDone(acc, p + |SizeLine(z)| + 2)
  {
    SizeLineReadsBack(d, p, z);
    hide Htoi, Find, SizeLine, ChunkOk, At;
  }

  /** The last CRLF need not be there: the position is put behind it all the same. */
  lemma {:induction false} ChunksWithoutEnd(d: string, p: nat, acc: string, cs: seq<Chunk>, z: Chunk)
    requires ChunksOk(cs) && LastOk(z) && At(d, p, Texts(cs) + SizeLine(z))
    ensures Chunks(d, p, acc) == ChunksDone(acc + Bodies(cs), p + |Texts(cs)| + |SizeLine(z)| + 2)
    decreases |cs|
  {
    hide Chunks, ChunkText, ChunkOk, At, SizeLine, LastOk;
    if cs == [] {
      assert Texts(cs) + SizeLine(z) == SizeLine(z);
      LastSizeLine(d, p, acc, z);
      assert acc + "" == acc;
    } else {
      var c := cs[0];
      assert ChunkOk(c) && c.data != "";
      assert Texts(cs) + SizeLine(z) == ChunkText(c) + (Texts(cs[1..]) + SizeLine(z));
      Split(d, p, ChunkText(c), Texts(cs[1..]) + SizeLine(z));
      ChunkReadsBack(d, p, acc, c);
      ChunksWithoutEnd(d, p + |ChunkText(c)|, acc + c.data, cs[1..], z);
      assert acc + c.data + Bodies(cs[1..]) == acc + Bodies(cs);
    }
  }

  /** The wire at the end of the first `j` chunks. */
  lemma WireParts(r: Response, cs: seq<Chunk>, z: Chunk, j: nat)
    requires j <= |cs|
    ensures (var w, h, p := ChunkedWire(r, cs, z), |HeaderBlock(r)|, Texts(cs[..j]);
             && h + |p| <= |w| && w[..h + |p|] == HeaderBlock(r) + p && w[h + |p|..] == Coding(cs[j..], z))
  {
    CodingParts(cs, z, j);
    var b, p, rest := HeaderBlock(r), Texts(cs[..j]), Coding(cs[j..], z);
    assert ChunkedWire(r, cs, z) == b + (p + rest);
    hide HeaderBlock, Texts, Coding, ChunkedWire;
    InThree(b, p, rest);
  }

  lemma InThree(a: string, b: string, c: string)
    ensures (a + (b + c))[..|a| + |b|] == a + b && (a + (b + c))[|a| + |b|..] == c
  {
    assert a + (b + c) == (a + b) + c;
  }

  /** The wire in front of its last CRLF. */
  lemma WireEnd(r: Response, cs: seq<Chunk>, z: Chunk)
    requires z.data == ""
    ensures ChunkedWire(r, cs, z) == HeaderBlock(r) + (Texts(cs) + SizeLine(z)) + CRLF
  {
    CodingParts(cs, z, |cs|);
    assert cs[..|cs|] == cs && cs[|cs|..] == [];
    assert Coding([], z) == SizeLine(z) + ("" + CRLF) == SizeLine(z) + CRLF;
    hide HeaderBlock, Texts, SizeLine, Coding;
    assert HeaderBlock(r) + (Texts(cs) + (SizeLine(z) + CRLF)) == HeaderBlock(r) + (Texts(cs) + SizeLine(z)) + CRLF;
  }

  /** What a client that has read everything ends with, having taken `body`. */
  function Ended(sync: bool, r: Response, buf: string, body: string): Client {
    var q := Parsed(r).(body := body);
    if sync then Client(true, Done, buf, |buf|, q, []) else Client(false, AtHeader, "", 0, q, [q])
  }

  /** The client at the body part, holding complete chunks only. */
  lemma BoundaryTurn(c: Client, cs: seq<Chunk>)
    requires c.step == AtBody && c.response.isChunk && ChunksOk(cs)
    requires At(c.buf, c.pos, Texts(cs)) && c.pos + |Texts(cs)| == |c.buf|
    ensures TurnBody(c) == Outcome(true, c.(response := c.response.(body := Bodies(cs)), pos := |c.buf|))
  {
    hide Chunks, Texts, Bodies, At, EndBody, ChunksOk;
    ChunksBeforeEnd(c.buf, c.pos, "", cs);
    assert "" + Bodies(cs) == Bodies(cs);
  }

  /** The client at the body part, the rest of the coding in the buffer and nothing behind it. */
  lemma RestTurn(sync: bool, r: Response, buf: string, pos: nat, body: string, cs: seq<Chunk>, z: Chunk)
    requires Parsed(r).isChunk && ChunksOk(cs) && LastOk(z)
    requires At(buf, pos, Coding(cs, z)) && pos + |Coding(cs, z)| == |buf|
    ensures TurnBody(Client(sync, AtBody, buf, pos, Parsed(r).(body := body), []))
         == Outcome(true, Ended(sync, r, buf, Bodies(cs)))
  {
    hide Parsed, Coding, Bodies, At, ChunksOk, LastOk, Chunks, TurnBody;
    CodingTurn(Client(sync, AtBody, buf, pos, Parsed(r).(body := body), []), cs, z);
  }

  /** The buffer up to the end of the first `j` chunks. */
  lemma BoundaryBuffer(r: Response, cs: seq<Chunk>, z: Chunk, j: nat)
    requires CodingOk(r, cs, z) && 0 < j <= |cs|
    ensures |HeaderBlock(r)| + |Texts(cs[..j])| < |ChunkedWire(r, cs, z)|
    ensures (var h, p := |HeaderBlock(r)|, Texts(cs[..j]);
             var buf := Marked(r, ChunkedWire(r, cs, z)[..h + |p|]);
             p != "" && |buf| == h + |p| && At(buf, h, p))
  {
    WireParts(r, cs, z, j);
    SomeText(cs, j);
    CodingStarts(cs[j..], z);
    MarkInHeader(r);
    hide HeaderBlock, Coding, Texts, Parsed, Mark, FirstLine;
    MarkedTail(r, HeaderBlock(r), Texts(cs[..j]));
  }

  /** The buffer once the rest is in. */
  lemma WholeBuffer(r: Response, cs: seq<Chunk>, z: Chunk, j: nat)
    requires CodingOk(r, cs, z) && 0 < j <= |cs|
    ensures |HeaderBlock(r)| + |Texts(cs[..j])| < |ChunkedWire(r, cs, z)|
    ensures (var w, m := ChunkedWire(r, cs, z), |HeaderBlock(r)| + |Texts(cs[..j])|;
             && |Marked(r, w)| == |w| && Marked(r, w[..m]) + w[m..] == Marked(r, w)
             && At(Marked(r, w), m, Coding(cs[j..], z)) && m + |Coding(cs[j..], z)| == |w|)
  {
    WireParts(r, cs, z, j);
    SomeText(cs, j);
    CodingStarts(cs[j..], z);
    MarkInHeader(r);
    hide HeaderBlock, Coding, Texts, Parsed, Mark, FirstLine, CodingOk, ChunkedWire, At, Marked;
    var w, m := ChunkedWire(r, cs, z), |HeaderBlock(r)| + |Texts(cs[..j])|;
    MarkedTail(r, w[..m], w[m..]);
    assert w[..m] + w[m..] == w;
    MarkedLength(r, w);
  }

  lemma SomeText(cs: seq<Chunk>, j: nat)
    requires ChunksOk(cs) && 0 < j <= |cs|
    ensures |Texts(cs[..j])| > 0 && ChunksOk(cs[..j]) && ChunksOk(cs[j..])
  {
    assert |ChunkText(cs[0])| > 0;
    hide ChunkText, ChunkOk;
  }

  /** Where the first `j` chunks end in the wire. */
  function Boundary(r: Response, cs: seq<Chunk>, j: nat): nat
    requires j <= |cs|
  {
    |HeaderBlock(r)| + |Texts(cs[..j])|
  }

  lemma BoundaryIsInside(r: Response, cs: seq<Chunk>, z: Chunk, j: nat)
    requires CodingOk(r, cs, z) && 0 < j <= |cs|
    ensures |HeaderBlock(r)| < Boundary(r, cs, j) < |ChunkedWire(r, cs, z)|
    ensures Boundary(r, cs, j) == |HeaderBlock(r)| + |Texts(cs[..j])|
  {
    hide HeaderBlock, Texts, ChunkedWire, Marked;
    BoundaryBuffer(r, cs, z, j);
  }

  /** The client after the first `m` bytes of the wire, the data of some complete chunks taken. */
  function Holding(sync: bool, r: Response, cs: seq<Chunk>, z: Chunk, m: nat, body: string): Client
    requires m <= |ChunkedWire(r, cs, z)|
  {
    Client(sync, AtBody, Marked(r, ChunkedWire(r, cs, z)[..m]), m, Parsed(r).(body := body), [])
  }

  /** A buffer from which the loop takes some complete chunks and nothing else. */
  lemma TakenSoFar(sync: bool, r: Response, buf: string, h: nat, taken: seq<Chunk>)
    requires Chunked(r) && ChunksOk(taken) && At(buf, h, Texts(taken)) && h + |Texts(taken)| == |buf|
    ensures TurnBody(Client(sync, AtBody, buf, h, Parsed(r), []))
         == Outcome(true, Client(sync, AtBody, buf, |buf|, Parsed(r).(body := Bodies(taken)), []))
  {
    ParsedIsChunk(r);
    hide Chunked, ChunksOk, At, Texts, TurnBody, Parsed, Bodies;
    BoundaryTurn(Client(sync, AtBody, buf, h, Parsed(r), []), taken);
  }

  lemma UpToBoundary(sync: bool, r: Response, cs: seq<Chunk>, z: Chunk, j: nat)
    requires CodingOk(r, cs, z) && 0 < j <= |cs|
    ensures Boundary(r, cs, j) < |ChunkedWire(r, cs, z)|
    ensures Recv(FreshClient(sync), ChunkedWire(r, cs, z)[..Boundary(r, cs, j)])
         == Outcome(true, Holding(sync, r, cs, z, Boundary(r, cs, j), Bodies(cs[..j])))
  {
    hide ChunkedWire, HeaderBlock, Texts, Parsed, Bodies, Marked, At, TurnBody, Recv, FreshClient, ChunksOk, LastOk;
    hide Chunked;
    BoundaryIsInside(r, cs, z, j);
    SomeText(cs, j);
    BoundaryBuffer(r, cs, z, j);
    EarlyStart(sync, r, cs, z, Boundary(r, cs, j));
    hide Boundary;
    TakenSoFar(sync, r, Marked(r, ChunkedWire(r, cs, z)[..Boundary(r, cs, j)]), |HeaderBlock(r)|, cs[..j]);
  }

  lemma BodyComesIn(sync: bool, q: Response, buf: string, more: string, whole: string)
    requires buf + more == whole && more != ""
    ensures Recv(Client(sync, AtBody, buf, |buf|, q, []), more)
         == TurnBody(Client(sync, AtBody, whole, |buf|, q, []))
  {
    hide TurnBody;
  }

  lemma FromBoundary(sync: bool, r: Response, cs: seq<Chunk>, z: Chunk, j: nat, body: string)
    requires CodingOk(r, cs, z) && 0 < j <= |cs|
    ensures Boundary(r, cs, j) < |ChunkedWire(r, cs, z)|
    ensures Recv(Holding(sync, r, cs, z, Boundary(r, cs, j), body), ChunkedWire(r, cs, z)[Boundary(r, cs, j)..])
         == Outcome(true, Ended(sync, r, Marked(r, ChunkedWire(r, cs, z)), Bodies(cs[j..])))
  {
    BoundaryIsInside(r, cs, z, j);
    WholeBuffer(r, cs, z, j);
    BoundaryBuffer(r, cs, z, j);
    SomeText(cs, j);
    ParsedIsChunk(r);
    hide CodingOk, ChunkedWire, HeaderBlock, Texts, Parsed, Bodies, ChunksOk, Chunked, LastOk, Marked, At;
    hide TurnBody, Recv, Ended, Coding, Boundary;
    var w, m := ChunkedWire(r, cs, z), Boundary(r, cs, j);
    RestTurn(sync, r, Marked(r, w), m, body, cs[j..], z);
    BodyComesIn(sync, Parsed(r).(body := body), Marked(r, w[..m]), w[m..], Marked(r, w));
  }

  /** What a fresh client makes of the wire in two fragments. */
  function CutAt(sync: bool, r: Response, cs: seq<Chunk>, z: Chunk, m: nat): Outcome
    requires m <= |ChunkedWire(r, cs, z)|
  {
    Feed(FreshClient(sync), [ChunkedWire(r, cs, z)[..m], ChunkedWire(r, cs, z)[m..]])
  }

  lemma CutAtIs(sync: bool, r: Response, cs: seq<Chunk>, z: Chunk, m: nat, c: Client)
    requires m <= |ChunkedWire(r, cs, z)| && Recv(FreshClient(sync), ChunkedWire(r, cs, z)[..m]) == Outcome(true, c)
    ensures CutAt(sync, r, cs, z, m) == Recv(c, ChunkedWire(r, cs, z)[m..])
  {
    hide ChunkedWire, Feed, Recv, FreshClient;
    TwoFragments(FreshClient(sync), ChunkedWire(r, cs, z)[..m], ChunkedWire(r, cs, z)[m..]);
  }

  /** A cut exactly behind the first `j` chunks: both calls succeed, and what was taken before the cut is gone. */
  lemma BoundaryCutDropsChunks(sync: bool, r: Response, cs: seq<Chunk>, z: Chunk, j: nat)
    requires CodingOk(r, cs, z) && 0 < j <= |cs|
    ensures Boundary(r, cs, j) < |ChunkedWire(r, cs, z)|
    ensures CutAt(sync, r, cs, z, Boundary(r, cs, j))
         == Outcome(true, Ended(sync, r, Marked(r, ChunkedWire(r, cs, z)), Bodies(cs[j..])))
  {
    hide CodingOk, ChunkedWire, Boundary, Bodies, Marked, Recv, Ended, Holding, FreshClient, CutAt;
    UpToBoundary(sync, r, cs, z, j);
    FromBoundary(sync, r, cs, z, j, Bodies(cs[..j]));
    CutAtIs(sync, r, cs, z, Boundary(r, cs, j), Holding(sync, r, cs, z, Boundary(r, cs, j), Bodies(cs[..j])));
  }

  /** The first fragment of a wire, reaching behind the header. */
  lemma EarlyStart(sync: bool, r: Response, cs: seq<Chunk>, z: Chunk, m: nat)
    requires CodingOk(r, cs, z) && |HeaderBlock(r)| <= m <= |ChunkedWire(r, cs, z)|
    ensures Recv(FreshClient(sync), ChunkedWire(r, cs, z)[..m])
         == TurnBody(Client(sync, AtBody, Marked(r, ChunkedWire(r, cs, z)[..m]), |HeaderBlock(r)|, Parsed(r), []))
  {
    EarlyIsInside(r, cs, z);
    NothingBefore(sync, r, cs, z);
    MarkInHeader(r);
    hide CodingOk, ChunkedWire, HeaderBlock, TurnBody, Recv, Marked, Parsed, Before, FreshClient;
    TurnFrom(sync, r, cs, z, 0, m);
    assert ChunkedWire(r, cs, z)[0..0 + m] == ChunkedWire(r, cs, z)[..m];
  }

  /** The buffer without the last CRLF, or with half of it. */
  lemma LateParts(r: Response, cs: seq<Chunk>, z: Chunk, m: nat)
    requires CodingOk(r, cs, z) && m < |ChunkedWire(r, cs, z)| <= m + 2
    ensures (var w, h := ChunkedWire(r, cs, z), |HeaderBlock(r)|;
             && h < m && |Marked(r, w[..m])| == m && At(Marked(r, w[..m]), h, Texts(cs) + SizeLine(z))
             && h + |Texts(cs)| + |SizeLine(z)| + 2 == |w|)
  {
    assert z.data == "";
    WireEnd(r, cs, z);
    MarkInHeader(r);
    SizeLineHasText(z);
    hide HeaderBlock, Coding, Texts, Parsed, Mark, CodingOk, ChunkedWire, SizeLine, At, Marked;
    var w, h, p := ChunkedWire(r, cs, z), |HeaderBlock(r)|, Texts(cs) + SizeLine(z);
    var rest := w[|w| - 2..m];
    CutEnd(HeaderBlock(r), p, m);
    MarkedTail(r, HeaderBlock(r), p + rest);
    Split(Marked(r, w[..m]), h, p, rest);
  }

  lemma CutEnd(b: string, p: string, m: nat)
    requires |b| + |p| <= m < |b| + |p| + 2
    ensures (var w := b + p + CRLF; w[..m] == b + (p + w[|w| - 2..m]))
  {
  }

  lemma SizeLineHasText(c: Chunk)
    ensures |SizeLine(c)| > 0
  {
  }

  /** A cut in front of the last CRLF, or in it: the body is complete, and the position beyond the buffer. */
  lemma LateTurn(sync: bool, r: Response, cs: seq<Chunk>, z: Chunk, m: nat)
    requires CodingOk(r, cs, z) && m < |ChunkedWire(r, cs, z)| <= m + 2
    ensures |HeaderBlock(r)| < m
    ensures (var w := ChunkedWire(r, cs, z);
             Recv(FreshClient(sync), w[..m])
               == EndBody(Client(sync, AtBody, Marked(r, w[..m]), |w|, ChunkedReceived(r, cs), [])))
  {
    LateParts(r, cs, z, m);
    ParsedIsChunk(r);
    assert ChunksOk(cs) && LastOk(z);
    hide CodingOk, ChunkedWire, HeaderBlock, Texts, Parsed, Bodies, ChunksOk, Chunked, LastOk, Marked, At, Chunks;
    hide SizeLine, EndBody, Recv;
    hide TurnBody, ChunkedReceived;
    EarlyStart(sync, r, cs, z, m);
    var w, h := ChunkedWire(r, cs, z), |HeaderBlock(r)|;
    ChunksWithoutEnd(Marked(r, w[..m]), h, "", cs, z);
    DoneTurn(Client(sync, AtBody, Marked(r, w[..m]), h, Parsed(r), []), Bodies(cs), |w|);
    assert ChunkedReceived(r, cs) == Parsed(r).(body := Bodies(cs)) by { ReceivedIs(r, cs); }
  }

  lemma DoneTurn(c: Client, body: string, pos: nat)
    requires c.step == AtBody && c.response.isChunk && Chunks(c.buf, c.pos, "") == ChunksDone("" + body, pos)
    ensures TurnBody(c) == EndBody(c.(response := c.response.(body := body), pos := pos))
  {
    hide Chunks, EndBody;
    assert "" + body == body;
  }

  lemma ReceivedIs(r: Response, cs: seq<Chunk>)
    ensures ChunkedReceived(r, cs) == Parsed(r).(body := Bodies(cs))
  {
  }

  /** A synchronous client is done then, and the end of the last CRLF empties its buffer. */
  lemma LateCutDelivers(r: Response, cs: seq<Chunk>, z: Chunk, m: nat)
    requires CodingOk(r, cs, z) && m < |ChunkedWire(r, cs, z)| <= m + 2
    ensures CutAt(true, r, cs, z, m) == Outcome(true, Client(true, Done, "", 0, ChunkedReceived(r, cs), []))
  {
    LateTurn(true, r, cs, z, m);
    LateParts(r, cs, z, m);
    var w := ChunkedWire(r, cs, z);
    hide CodingOk, ChunkedWire, HeaderBlock, Coding, Texts, ChunkedReceived, Marked, At, SizeLine;
    var c := Client(true, Done, Marked(r, w[..m]), |w|, ChunkedReceived(r, cs), []);
    CutAtIs(true, r, cs, z, m, c);
    assert |c.buf + w[m..]| == |w|;
  }

  /** An asynchronous client goes on behind the end of its buffer, where the distance wraps: the call fails. */
  lemma LateCutFails(r: Response, cs: seq<Chunk>, z: Chunk, m: nat)
    requires CodingOk(r, cs, z) && m < |ChunkedWire(r, cs, z)| <= m + 2
    ensures !CutAt(false, r, cs, z, m).ok
  {
    LateTurn(false, r, cs, z, m);
    LateParts(r, cs, z, m);
    hide CodingOk, ChunkedWire, HeaderBlock, Texts, ChunkedReceived, Marked, At, SizeLine, EndBody, Recv, CutAt;
    var w := ChunkedWire(r, cs, z);
    PastTheEnd(Client(false, AtBody, Marked(r, w[..m]), |w|, ChunkedReceived(r, cs), []));
    CutFailsAtOnce(false, r, cs, z, m);
  }

  lemma CutFailsAtOnce(sync: bool, r: Response, cs: seq<Chunk>, z: Chunk, m: nat)
    requires m <= |ChunkedWire(r, cs, z)| && !Recv(FreshClient(sync), ChunkedWire(r, cs, z)[..m]).ok
    ensures !CutAt(sync, r, cs, z, m).ok
  {
    hide ChunkedWire, Feed, Recv, FreshClient;
    TwoFragments(FreshClient(sync), ChunkedWire(r, cs, z)[..m], ChunkedWire(r, cs, z)[m..]);
  }

  lemma PastTheEnd(c: Client)
    requires !c.sync && c.step == AtBody && c.pos > |c.buf|
    ensures !EndBody(c).ok
  {
    hide DecodeHeader, TurnBody;
  }

  // ---------------------------------------------------------------- which cuts are safe

  /** A response cut in two at `m` gives the client the whole body. */
  predicate TakesWhole(sync: bool, r: Response, cs: seq<Chunk>, z: Chunk, m: nat)
    requires m <= |ChunkedWire(r, cs, z)|
  {
    var o := CutAt(sync, r, cs, z, m);
    o.ok && Got(sync, o.client, ChunkedReceived(r, cs))
  }

  predicate Got(sync: bool, c: Client, q: Response) {
    if sync then c.step == Done && c.response == q else c.step == AtHeader && c.handled == [q]
  }

  lemma EndedWithLess(sync: bool, r: Response, buf: string, body: string, cs: seq<Chunk>)
    requires |body| < |Bodies(cs)|
    ensures !Got(sync, Ended(sync, r, buf, body), ChunkedReceived(r, cs))
  {
    hide Parsed, Bodies;
  }

  lemma EarlyCutDelivers(sync: bool, r: Response, cs: seq<Chunk>, z: Chunk, m: nat)
    requires CodingOk(r, cs, z) && 0 < m < |ChunkedWire(r, cs, z)| && EarlyCut(r, cs, z, m)
    ensures TakesWhole(sync, r, cs, z, m)
  {
    var w := ChunkedWire(r, cs, z);
    var frags := [w[..m], w[m..]];
    TwoParts(w, m);
    hide CodingOk, ChunkedWire, Feed, EarlyCut, HeaderBlock, Parsed, Bodies;
    assert CutsEarly(r, cs, z, frags);
    ChunkedDelivered(sync, r, cs, z, frags);
  }

  /** Without any data every cut is early or late. */
  lemma EmptyBodyCuts(r: Response, z: Chunk, m: nat)
    requires CodingOk(r, [], z) && |HeaderBlock(r)| <= 1024 && 0 < m < |ChunkedWire(r, [], z)|
    ensures TakesWhole(true, r, [], z, m)
  {
    var w := ChunkedWire(r, [], z);
    assert |w| == Early(r, [], z) + 2 by { hide HeaderBlock; }
    if m < Early(r, [], z) {
      hide HeaderBlock, CodingOk, ChunkedWire, Early;
      EarlyCutDelivers(true, r, [], z, m);
    } else {
      hide HeaderBlock, CodingOk, ChunkedWire, Early, Feed, ChunkedReceived;
      LateCutDelivers(r, [], z, m);
    }
  }

  /** Behind the first chunk of a body there is a cut that loses it. */
  lemma FirstChunkLost(sync: bool, r: Response, cs: seq<Chunk>, z: Chunk)
    requires CodingOk(r, cs, z) && cs != []
    ensures 0 < Boundary(r, cs, 1) < |ChunkedWire(r, cs, z)|
    ensures !TakesWhole(sync, r, cs, z, Boundary(r, cs, 1))
  {
    assert ChunksOk(cs);
    hide CodingOk, Boundary, ChunkedWire, Marked, Ended, Got, ChunkedReceived, CutAt, HeaderBlock, Bodies, ChunksOk;
    BoundaryIsInside(r, cs, z, 1);
    BoundaryCutDropsChunks(sync, r, cs, z, 1);
    FewerBytes(cs);
    EndedWithLess(sync, r, Marked(r, ChunkedWire(r, cs, z)), Bodies(cs[1..]), cs);
  }

  lemma FewerBytes(cs: seq<Chunk>)
    requires ChunksOk(cs) && cs != []
    ensures |Bodies(cs[1..])| < |Bodies(cs)|
  {
    hide ChunkOk;
  }

  /** A header longer than 1024 bytes fails when it is cut there. */
  lemma LongHeaderCutFails(sync: bool, r: Response, cs: seq<Chunk>, z: Chunk)
    requires CodingOk(r, cs, z) && |HeaderBlock(r)| > 1024
    ensures |ChunkedWire(r, cs, z)| > 1024 && !CutAt(sync, r, cs, z, 1024).ok
  {
    HeaderTooLong(sync, r);
    hide HeaderBlock, Coding, FreshClient, Recv, CutAt;
    assert ChunkedWire(r, cs, z)[..1024] == HeaderBlock(r)[..1024];
    CutFailsAtOnce(sync, r, cs, z, 1024);
  }

  /** Exactly the synchronous client, the empty body and the header that fits survive every cut in two: a body with
      data is cut short by a cut behind its first chunk, the asynchronous client fails on a cut in front of the last
      CRLF, and a longer header fails on a cut at 1024 bytes. */
  lemma EveryCutIff(sync: bool, r: Response, cs: seq<Chunk>, z: Chunk)
    requires CodingOk(r, cs, z)
    ensures (forall m :: 0 < m < |ChunkedWire(r, cs, z)| ==> TakesWhole(sync, r, cs, z, m))
       <==> sync && cs == [] && |HeaderBlock(r)| <= 1024
  {
    if |HeaderBlock(r)| > 1024 {
      LongHeaderCutFails(sync, r, cs, z);
      assert !TakesWhole(sync, r, cs, z, 1024) by { hide ChunkedWire, CutAt; }
    } else if sync && cs == [] {
      forall m | 0 < m < |ChunkedWire(r, cs, z)| ensures TakesWhole(sync, r, cs, z, m) { EmptyBodyCuts(r, z, m); }
    } else if sync {
      FirstChunkLost(sync, r, cs, z);
    } else {
      var m := |ChunkedWire(r, cs, z)| - 2;
      EarlyIsInside(r, cs, z);
      MarkInHeader(r);
      assert m > 0 by { CodingStarts(cs, z); hide HeaderBlock, Coding; }
      LateCutFails(r, cs, z, m);
      assert !TakesWhole(sync, r, cs, z, m) by { hide ChunkedWire, CutAt; }
    }
    hide TakesWhole, ChunkedWire, HeaderBlock, Texts;
  }
}
