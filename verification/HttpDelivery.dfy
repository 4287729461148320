/** A printed response reaches the client whole, however the network cuts it. */
module HttpDelivery {
  import opened Buffers
  import opened Strings
  import opened Wrappers
  import opened Http
  import opened HttpProofs

  /** The response a client ends with. */
  function Received(r: Response): Response { Parsed(r).(body := r.body) }

  /** The client after the first `m` bytes of the printed response. */
  function After(sync: bool, r: Response, m: nat): Client
    requires m <= |Wire(r)|
  {
    var seen, h := Wire(r)[..m], |HeaderBlock(r)|;
    if m < h then Client(sync, AtHeader, seen, 0, FRESH, [])
    else if m < |Wire(r)| then Client(sync, AtBody, Marked(r, seen), h, Parsed(r), [])
    else if sync then Client(true, Done, Marked(r, seen), m, Received(r), [])
    else Client(false, AtHeader, "", 0, Received(r), [Received(r)])
  }

  // ---------------------------------------------------------------- one fragment

  lemma MarkInHeader(r: Response)
    ensures Mark(r) < |HeaderBlock(r)|
  {
    hide Decimal, StatusDesc;
    HeaderShape(r);
  }

  lemma MarkedGrows(r: Response, m: nat, n: nat)
    requires |HeaderBlock(r)| <= m && m + n <= |Wire(r)|
    ensures Marked(r, Wire(r)[..m]) + Wire(r)[m..m + n] == Marked(r, Wire(r)[..m + n])
  {
    hide HeaderBlock, Mark, Wire;
    MarkInHeader(r);
    assert Wire(r)[..m] + Wire(r)[m..m + n] == Wire(r)[..m + n];
  }

  /** The body part of the loop once `m` bytes are in the buffer. */
  lemma BodyTurn(sync: bool, r: Response, m: nat)
    requires WellFormed(r) && |HeaderBlock(r)| <= m <= |Wire(r)|
    ensures TurnBody(Client(sync, AtBody, Marked(r, Wire(r)[..m]), |HeaderBlock(r)|, Parsed(r), []))
         == Outcome(true, After(sync, r, m))
  {
    ParsedPlainly(r);
    MarkInHeader(r);
    hide HeaderBlock, Parsed, Mark, StatusDesc, WellFormed;
    var buf, h := Marked(r, Wire(r)[..m]), |HeaderBlock(r)|;
    var c := Client(sync, AtBody, buf, h, Parsed(r), []);
    if m == |Wire(r)| {
      assert buf[h..] == r.body;
      assert TurnBody(c) == EndBody(c.(response := Received(r), pos := m));
    } else {
      assert TurnBody(c) == Outcome(true, c);
    }
  }

  lemma StillHeader(sync: bool, r: Response, n: nat)
    requires HeaderOk(r) && 0 < n < |HeaderBlock(r)| && n < 1024
    ensures Turn(Client(sync, AtHeader, HeaderBlock(r)[..n], 0, FRESH, []))
         == Outcome(true, Client(sync, AtHeader, HeaderBlock(r)[..n], 0, FRESH, []))
  {
    HeaderMissing(r, n);
    hide HeaderBlock, HeaderOk, Find, DecodeHeader, TurnBody;
  }

  /** The fragment that completes the header block. */
  lemma HeaderArrives(sync: bool, r: Response, d: string)
    requires HeaderOk(r) && At(d, 0, HeaderBlock(r))
    ensures Turn(Client(sync, AtHeader, d, 0, FRESH, []))
         == TurnBody(Client(sync, AtBody, Marked(r, d), |HeaderBlock(r)|, Parsed(r), []))
  {
    hide HeaderBlock, HeaderOk, Find, StrStr, DecodeHeader, TurnBody, Marked, Parsed, At;
    HeaderEnd(r, d);
    HeaderReadsBack(r, d);
  }

  lemma {:induction false} BodyArrives(sync: bool, r: Response, buf: string, h: nat)
    requires h < |buf|
    ensures Turn(Client(sync, AtBody, buf, h, r, [])) == TurnBody(Client(sync, AtBody, buf, h, r, []))
  {
  }

  lemma Extended(r: Response, m: nat, n: nat)
    requires m + n <= |Wire(r)|
    ensures Wire(r)[..m] + Wire(r)[m..m + n] == Wire(r)[..m + n]
    ensures m + n < |HeaderBlock(r)| ==> Wire(r)[..m + n] == HeaderBlock(r)[..m + n]
    ensures m + n >= |HeaderBlock(r)| ==> At(Wire(r)[..m + n], 0, HeaderBlock(r))
    ensures |HeaderBlock(r)| <= |Wire(r)|
  {
    hide HeaderBlock;
  }

  /** One more non-empty fragment, at any cut: the header must not exceed the buffer limit while incomplete. */
  lemma OneFragment(sync: bool, r: Response, m: nat, n: nat)
    requires WellFormed(r) && 0 < n && m + n <= |Wire(r)|
    requires m + n < |HeaderBlock(r)| ==> m + n < 1024
    ensures Recv(After(sync, r, m), Wire(r)[m..m + n]) == Outcome(true, After(sync, r, m + n))
  {
    assert HeaderOk(r);
    hide Parsed, Mark, WellFormed, HeaderOk, Marked, HeaderBlock, Turn, TurnBody, Wire, At;
    Extended(r, m, n);
    var whole := Wire(r)[..m + n];
    if m + n < |HeaderBlock(r)| {
      StillHeader(sync, r, m + n);
    } else if m < |HeaderBlock(r)| {
      HeaderArrives(sync, r, whole);
      BodyTurn(sync, r, m + n);
    } else {
      MarkedGrows(r, m, n);
      MarkedLength(r, whole);
      BodyArrives(sync, Parsed(r), Marked(r, whole), |HeaderBlock(r)|);
      BodyTurn(sync, r, m + n);
    }
  }

  lemma MarkedLength(r: Response, d: string)
    ensures |Marked(r, d)| == |d|
  {
  }

  // ---------------------------------------------------------------- all fragments

  function Concat(ts: seq<string>): string {
    if ts == [] then "" else Concat(ts[..|ts| - 1]) + ts[|ts| - 1]
  }

  predicate Splits(frags: seq<string>, text: string) {
    Concat(frags) == text && forall i :: 0 <= i < |frags| ==> frags[i] != ""
  }

  /** The client took the response apart into what was printed. */
  predicate Same(a: Response, r: Response) {
    a.version == r.version && a.statusCode == r.statusCode && a.entries == r.entries && a.body == r.body
  }

  /** The response is there: kept by a synchronous client, handed to the callback by the other. */
  predicate Complete(c: Client, r: Response) {
    if c.sync then c.step == Done && Same(c.response, r) && c.handled == []
    else c.step == AtHeader && c.buf == "" && |c.handled| == 1 && Same(c.handled[0], r)
  }

  predicate Pending(c: Client) { c.step != Done && c.handled == [] }

  /** No call fails, and the response is complete with the last fragment and not before. */
  predicate Delivers(sync: bool, r: Response, frags: seq<string>) {
    var o := Feed(FreshClient(sync), frags);
    && o.ok && Complete(o.client, r)
    && forall k :: 0 <= k < |frags| ==>
         Feed(FreshClient(sync), frags[..k]).ok && Pending(Feed(FreshClient(sync), frags[..k]).client)
  }

  lemma LastFragment(frags: seq<string>, w: string)
    requires frags != [] && Concat(frags) <= w
    ensures var k := |frags| - 1;
            var m, n := |Concat(frags[..k])|, |frags[k]|;
            && Concat(frags[..k]) <= w && |Concat(frags)| == m + n <= |w| && w[m..m + n] == frags[k]
  {
    var k := |frags| - 1;
    assert Concat(frags) == Concat(frags[..k]) + frags[k];
    hide Concat;
    PartOf(w, Concat(frags[..k]), frags[k]);
  }

  lemma PartOf(w: string, a: string, b: string)
    requires a + b <= w
    ensures a <= w && w[|a|..|a| + |b|] == b
  {
    assert w[..|a| + |b|] == a + b;
    assert w[|a|..|a| + |b|] == w[..|a| + |b|][|a|..];
  }

  lemma NothingYet(sync: bool, r: Response)
    ensures After(sync, r, 0) == FreshClient(sync)
  {
    MarkInHeader(r);
    hide HeaderBlock, Marked;
  }

  lemma {:induction false} FragmentsArrive(sync: bool, r: Response, frags: seq<string>)
    requires WellFormed(r) && |HeaderBlock(r)| <= 1024
    requires Concat(frags) <= Wire(r) && forall i :: 0 <= i < |frags| ==> frags[i] != ""
    ensures Feed(FreshClient(sync), frags) == Outcome(true, After(sync, r, |Concat(frags)|))
    decreases |frags|
  {
    hide HeaderBlock, WellFormed, Recv, Wire, After, FreshClient;
    if frags == [] {
      NothingYet(sync, r);
    } else {
      hide Concat;
      var k := |frags| - 1;
      LastFragment(frags, Wire(r));
      FragmentsArrive(sync, r, frags[..k]);
      OneFragment(sync, r, |Concat(frags[..k])|, |frags[k]|);
    }
  }

  lemma {:induction false} PrefixOfSplit(frags: seq<string>, k: nat)
    requires k <= |frags| && forall i :: 0 <= i < |frags| ==> frags[i] != ""
    ensures Concat(frags[..k]) <= Concat(frags)
    ensures k < |frags| ==> |Concat(frags[..k])| < |Concat(frags)|
    decreases |frags|
  {
    if k < |frags| {
      var n := |frags| - 1;
      PrefixOfSplit(frags[..n], k);
      assert frags[..n][..k] == frags[..k];
    } else {
      assert frags[..k] == frags;
    }
  }

  lemma AfterIsComplete(sync: bool, r: Response, m: nat)
    requires WellFormed(r) && m <= |Wire(r)|
    ensures m == |Wire(r)| ==> Complete(After(sync, r, m), r)
    ensures m < |Wire(r)| ==> Pending(After(sync, r, m))
  {
    ParsedPlainly(r);
    hide Parsed, HeaderBlock;
  }

  lemma SplitDelivers(sync: bool, r: Response, frags: seq<string>)
    requires WellFormed(r) && |HeaderBlock(r)| <= 1024 && Splits(frags, Wire(r))
    ensures Delivers(sync, r, frags)
  {
    hide Wire, After, Feed, WellFormed, HeaderBlock, Complete, Pending, Concat;
    FragmentsArrive(sync, r, frags);
    AfterIsComplete(sync, r, |Wire(r)|);
    forall k | 0 <= k < |frags|
      ensures Feed(FreshClient(sync), frags[..k]).ok && Pending(Feed(FreshClient(sync), frags[..k]).client)
    {
      PrefixOfSplit(frags, k);
      FragmentsArrive(sync, r, frags[..k]);
      AfterIsComplete(sync, r, |Concat(frags[..k])|);
    }
  }

  /** Bytes behind the body in the same fragment become part of it: all that is there is taken, only the position goes
      by the announced length. */
  lemma ExtraBytesTaken(r: Response, extra: string)
    requires WellFormed(r)
    ensures var buf, taken := Marked(r, Wire(r) + extra), Parsed(r).(body := r.body + extra);
            Recv(FreshClient(true), Wire(r) + extra)
              == Outcome(true, Client(true, Done, buf, |Wire(r)|, taken, []))
  {
    var d, h := Wire(r) + extra, |HeaderBlock(r)|;
    ParsedPlainly(r);
    MarkInHeader(r);
    assert At(d, 0, HeaderBlock(r)) && FreshClient(true).buf + d == d;
    HeaderArrives(true, r, d);
    MarkedBody(r, extra);
    hide HeaderBlock, Parsed, Mark, StatusDesc, WellFormed, Wire, Turn, Marked, At;
    ExtraTurn(Client(true, AtBody, Marked(r, d), h, Parsed(r), []));
  }

  lemma MarkedBody(r: Response, extra: string)
    ensures var d := Wire(r) + extra; |Marked(r, d)| == |d| && Marked(r, d)[|HeaderBlock(r)|..] == r.body + extra
  {
    MarkInHeader(r);
    hide HeaderBlock, Mark;
  }

  lemma ExtraTurn(c: Client)
    requires c.sync && c.step == AtBody && !c.response.isChunk && c.pos + c.response.contentLength <= |c.buf|
    ensures TurnBody(c)
         == Outcome(true, c.(step := Done, pos := c.pos + c.response.contentLength,
                             response := c.response.(body := c.buf[c.pos..])))
  {
  }

  lemma TwoParts(w: string, m: nat)
    requires 0 < m < |w|
    ensures Splits([w[..m], w[m..]], w) && Concat([w[..m], w[m..]][..1]) == w[..m]
  {
    var frags := [w[..m], w[m..]];
    assert frags[..1] == [w[..m]] && frags[..1][..0] == [];
    assert Concat(frags[..1]) == w[..m];
    assert w[..m] + w[m..] == w;
  }

  lemma TwoFragments(c: Client, a: string, b: string)
    ensures Feed(c, [a, b]) == if Recv(c, a).ok then Recv(Recv(c, a).client, b) else Recv(c, a)
  {
    hide Recv;
    assert [a, b][..1] == [a] && [a][..0] == [];
    assert Feed(c, [a]) == Recv(c, a);
  }

  /** The first 1024 bytes of a longer header are refused. */
  lemma HeaderTooLong(sync: bool, r: Response)
    requires HeaderOk(r) && |HeaderBlock(r)| > 1024
    ensures !Recv(FreshClient(sync), HeaderBlock(r)[..1024]).ok
  {
    HeaderMissing(r, 1024);
    hide HeaderBlock, HeaderOk, Find;
    assert FreshClient(sync).buf + HeaderBlock(r)[..1024] == HeaderBlock(r)[..1024];
  }

  /** A longer header block is refused when its first 1024 bytes come alone. */
  lemma LongHeaderRefused(sync: bool, r: Response)
    requires WellFormed(r) && |HeaderBlock(r)| > 1024
    ensures |Wire(r)| > 1024
    ensures var frags := [Wire(r)[..1024], Wire(r)[1024..]];
            Splits(frags, Wire(r)) && !Feed(FreshClient(sync), frags).ok
  {
    assert HeaderOk(r);
    HeaderTooLong(sync, r);
    var w := Wire(r);
    hide HeaderBlock, WellFormed, HeaderOk, Recv, FreshClient;
    assert w[..1024] == HeaderBlock(r)[..1024];
    hide Wire, Feed, Splits;
    TwoParts(w, 1024);
    TwoFragments(FreshClient(sync), w[..1024], w[1024..]);
  }

  /** Printing, cutting anywhere and parsing gives the response back exactly for header blocks within the limit. */
  lemma DeliveredIffHeaderFits(sync: bool, r: Response)
    requires WellFormed(r)
    ensures (forall frags :: Splits(frags, Wire(r)) ==> Delivers(sync, r, frags)) <==> |HeaderBlock(r)| <= 1024
  {
    hide Wire, WellFormed, HeaderBlock, Splits, Feed;
    if |HeaderBlock(r)| <= 1024 {
      forall frags | Splits(frags, Wire(r)) ensures Delivers(sync, r, frags) {
        SplitDelivers(sync, r, frags);
      }
    } else {
      LongHeaderRefused(sync, r);
      assert !Delivers(sync, r, [Wire(r)[..1024], Wire(r)[1024..]]);
    }
  }
}
