/** Several calls on one synchronous client: `response::clear` forgets the length and the entries, and nothing else. */
module HttpReuse {
  import opened Buffers
  import opened Strings
  import opened Wrappers
  import opened Http
  import opened HttpProofs
  import opened HttpDelivery

  predicate DeliversTo(c: Client, r: Response, frags: seq<string>) {
    var o := Feed(c, frags); o.ok && Complete(o.client, r)
  }

  /** Clients that differ only in what the next header overwrites, or in what the next body overwrites. */
  predicate Alike(a: Client, b: Client) {
    && a.sync && b.sync && a.step == b.step && a.buf == b.buf && a.pos == b.pos && a.handled == b.handled
    && match a.step
       case AtHeader => SameSlate(a.response, b.response)
       case AtBody => a.response == b.response.(body := a.response.body)
       case Done => a.response == b.response
  }

  predicate SameSlate(x: Response, y: Response) {
    x.contentLength == y.contentLength && x.entries == y.entries && x.isChunk == y.isChunk
  }

  // ---------------------------------------------------------------- what decode_header does not look at

  lemma {:induction false} FieldsIgnoreBody(r: Response, b: string, d: string, p: nat, limit: nat)
    ensures DecodeFields(r.(body := b), d, p, limit) ==
      match DecodeFields(r, d, p, limit)
      case None => None
      case Some(q) => Some(q.(body := b))
    decreases limit - p
  {
    hide StrStr, Atoi;
    if p < limit {
      var c := StrStr(d, p, ": ");
      if c.Some? {
        var e := StrStr(d, c.value + 2, "\r\n");
        if e.Some? {
          var key, value := d[p..c.value], d[c.value + 2..e.value];
          assert AddField(r.(body := b), key, value) == AddField(r, key, value).(body := b);
          FieldsIgnoreBody(AddField(r, key, value), b, d, e.value + 2, limit);
        }
      }
    }
  }

  lemma {:induction false} FieldsKeepChunk(r: Response, d: string, p: nat, limit: nat)
    ensures DecodeFields(r.(isChunk := true), d, p, limit) ==
      match DecodeFields(r, d, p, limit)
      case None => None
      case Some(q) => Some(q.(isChunk := true))
    decreases limit - p
  {
    hide StrStr, Atoi;
    if p < limit {
      var c := StrStr(d, p, ": ");
      if c.Some? {
        var e := StrStr(d, c.value + 2, "\r\n");
        if e.Some? {
          var key, value := d[p..c.value], d[c.value + 2..e.value];
          assert AddField(r.(isChunk := true), key, value) == AddField(r, key, value).(isChunk := true);
          FieldsKeepChunk(AddField(r, key, value), d, e.value + 2, limit);
        }
      }
    }
  }

  /** The header starts from the same slate: the same success, the same buffer, the same response but for the body. */
  lemma HeaderIgnoresRest(x: Response, y: Response, d: string, p: nat)
    requires SameSlate(x, y)
    ensures DecodeHeader(x, d, p) ==
      match DecodeHeader(y, d, p)
      case None => None
      case Some((q, d')) => Some((q.(body := x.body), d'))
  {
    hide StrStr, Atoi, DecodeFields;
    var headerEnd, v := StrStr(d, p, "\r\n\r\n"), StrStr(d, p, " ");
    if headerEnd.Some? && v.Some? {
      var s := StrStr(d, v.value + 1, " ");
      if s.Some? {
        var d' := d[s.value := '\0'];
        var e := StrStr(d', s.value + 1, "\r\n");
        if e.Some? {
          var y' := y.(version := d[p..v.value], statusCode := Atoi(d[v.value + 1..s.value]) % 0x1_0000,
                       statusDesc := d'[s.value + 1..e.value]);
          FieldsIgnoreBody(y', x.body, d', e.value + 2, headerEnd.value + 2);
        }
      }
    }
  }

  // ---------------------------------------------------------------- simulation

  lemma BodyAlike(a: Client, b: Client)
    requires Alike(a, b) && a.step == AtBody
    ensures TurnBody(a).ok == TurnBody(b).ok && Alike(TurnBody(a).client, TurnBody(b).client)
  {
    hide Chunks;
  }

  lemma RecvAlike(a: Client, b: Client, data: string)
    requires Alike(a, b)
    ensures Recv(a, data).ok == Recv(b, data).ok
    ensures Recv(a, data).ok ==> Alike(Recv(a, data).client, Recv(b, data).client)
  {
    hide Find, DecodeHeader, TurnBody;
    var buf := a.buf + data;
    var a', b' := a.(buf := buf), b.(buf := buf);
    if |buf| == a.pos {
    } else if a.step == AtBody {
      BodyAlike(a', b');
    } else {
      HeaderIgnoresRest(a.response, b.response, buf, a.pos);
      var h, o := Find(buf, a.pos, "\r\n\r\n"), DecodeHeader(b.response, buf, a.pos);
      if h.Some? && o.Some? {
        var (q, d') := o.value;
        var y := b'.(response := q, buf := d', pos := h.value + 4, step := AtBody);
        var x := y.(response := q.(body := a.response.body));
        BodyAlike(x, y);
        assert Turn(a') == TurnBody(x) && Turn(b') == TurnBody(y);
      }
    }
  }

  lemma {:induction false} FeedAlike(a: Client, b: Client, frags: seq<string>)
    requires Alike(a, b)
    ensures Feed(a, frags).ok == Feed(b, frags).ok
    ensures Feed(a, frags).ok ==> Alike(Feed(a, frags).client, Feed(b, frags).client)
    decreases |frags|
  {
    hide Recv, Alike;
    if frags != [] {
      var n := |frags| - 1;
      FeedAlike(a, b, frags[..n]);
      if Feed(a, frags[..n]).ok {
        RecvAlike(Feed(a, frags[..n]).client, Feed(b, frags[..n]).client, frags[n]);
      }
    }
  }

  // ---------------------------------------------------------------- reuse

  lemma ReusedDelivers(c: Client, r: Response, frags: seq<string>)
    requires c.sync && c.handled == [] && !c.response.isChunk
    requires WellFormed(r) && |HeaderBlock(r)| <= 1024 && Splits(frags, Wire(r))
    ensures DeliversTo(Reset(c), r, frags)
  {
    assert Alike(Reset(c), FreshClient(true));
    FeedAlike(Reset(c), FreshClient(true), frags);
    SplitDelivers(true, r, frags);
    hide Feed, WellFormed, HeaderBlock, Splits;
  }

  /** After a chunked response the flag is still set: a plain body is taken for chunks, and without a line end in it
      the client waits for ever. */
  lemma StuckAfterChunked(c: Client, r: Response)
    requires c.sync && c.response.isChunk && HeaderOk(r) && '\r' !in r.body
    ensures Splits([Wire(r)], Wire(r)) && !DeliversTo(Reset(c), r, [Wire(r)])
  {
    hide Wire, Reset, Recv, HeaderBlock;
    WireParts(r);
    assert [Wire(r)][..0] == [] && Concat([Wire(r)]) == Wire(r);
    var c0 := Reset(c);
    assert Feed(c0, [Wire(r)]) == Recv(c0, Wire(r));
    StuckOnce(c, r);
  }

  lemma StuckOnce(c: Client, r: Response)
    requires c.sync && c.response.isChunk && HeaderOk(r) && '\r' !in r.body
    ensures Recv(Reset(c), Wire(r)).client.step == AtBody
  {
    hide Wire, Reset, Mark, HeaderBlock, HeaderOk, Parsed, Find, DecodeHeader, At;
    var c0, w, h := Reset(c), Wire(r), |HeaderBlock(r)|;
    WireParts(r);
    HeaderEnd(r, w);
    StaleHeader(c, r, w);
    MarkInHeader(r);
    ResetParts(c);
    assert c0.buf + w == w;
    var buf := Marked(r, w);
    assert buf[h..] == r.body;
    hide Marked;
    NoLineEnd(buf, h);
    var y := c0.(response := DecodeHeader(c0.response, w, 0).value.0, buf := buf, pos := h, step := AtBody);
    assert Turn(c0.(buf := w)) == TurnBody(y);
    assert Chunks(buf, h, "") == ChunksWait("", h);
    assert TurnBody(y).client.step == AtBody;
  }

  lemma NoLineEnd(buf: string, h: nat)
    requires h <= |buf| && '\r' !in buf[h..]
    ensures Find(buf, h, CRLF) == None
  {
    forall k | h <= k <= |buf| ensures !At(buf, k, CRLF) {
      if k + 2 <= |buf| {
        assert buf[k] == buf[h..][k - h];
        Mismatch(buf, k, CRLF, 0);
      }
    }
  }

  lemma WireParts(r: Response)
    requires HeaderOk(r)
    ensures At(Wire(r), 0, HeaderBlock(r)) && Wire(r)[|HeaderBlock(r)|..] == r.body && Wire(r) != ""
  {
    MarkInHeader(r);
    hide HeaderBlock;
  }

  lemma ResetParts(c: Client)
    ensures var c0 := Reset(c);
            c0.sync == c.sync && c0.step == AtHeader && c0.buf == "" && c0.pos == 0 && c0.handled == c.handled
            && c0.response == c.response.(contentLength := 0, entries := [])
  {
  }

  lemma StaleHeader(c: Client, r: Response, d: string)
    requires c.response.isChunk && HeaderOk(r) && At(d, 0, HeaderBlock(r))
    ensures var o := DecodeHeader(Reset(c).response, d, 0);
            o.Some? && o.value.0.isChunk && o.value.1 == Marked(r, d)
  {
    var base := Reset(c).response;
    HeaderIgnoresRest(base, FRESH.(isChunk := true), d, 0);
    HeaderKeepsChunk(FRESH, d, 0);
    HeaderReadsBack(r, d);
    hide DecodeHeader, HeaderOk, HeaderBlock, Marked, Parsed;
  }

  lemma HeaderKeepsChunk(y: Response, d: string, p: nat)
    ensures DecodeHeader(y.(isChunk := true), d, p) ==
      match DecodeHeader(y, d, p)
      case None => None
      case Some((q, d')) => Some((q.(isChunk := true), d'))
  {
    hide StrStr, Atoi, DecodeFields;
    var headerEnd, v := StrStr(d, p, "\r\n\r\n"), StrStr(d, p, " ");
    if headerEnd.Some? && v.Some? {
      var s := StrStr(d, v.value + 1, " ");
      if s.Some? {
        var d' := d[s.value := '\0'];
        var e := StrStr(d', s.value + 1, "\r\n");
        if e.Some? {
          var y' := y.(version := d[p..v.value], statusCode := Atoi(d[v.value + 1..s.value]) % 0x1_0000,
                       statusDesc := d'[s.value + 1..e.value]);
          FieldsKeepChunk(y', d', e.value + 2, headerEnd.value + 2);
        }
      }
    }
  }

  const SHORT := FRESH.(body := "x")

  lemma ShortIsWellFormed()
    ensures WellFormed(SHORT) && |HeaderBlock(SHORT)| <= 1024 && '\r' !in SHORT.body
  {
    ShortLines();
    assert WellFormed(SHORT) by { hide Fields; }
    hide StatusLine, EntryLine, Fields, WellFormed;
    var f := Fields(SHORT)[0];
    assert Fields(SHORT) == [f];
    OneLine(f);
    var ls := [StatusLine(SHORT), EntryLine(f)];
    assert [StatusLine(SHORT)] + EntryLines(Fields(SHORT)) == ls;
    assert |Join(ls)| < 300 by { TwoLines(StatusLine(SHORT), EntryLine(f)); }
  }

  lemma TwoLines(a: string, b: string)
    ensures Join([a, b]) == a + "\r\n" + (b + "\r\n")
  {
    assert [a, b][1..] == [b] && [b][1..] == [];
    assert Join([b]) == b + "\r\n";
  }

  lemma OneLine(f: Entry)
    ensures EntryLines([f]) == [EntryLine(f)]
  {
    assert [f][1..] == [];
    hide EntryLine;
  }

  lemma ShortLines()
    ensures |StatusLine(SHORT)| < 100 && |Fields(SHORT)| == 1 && |EntryLine(Fields(SHORT)[0])| < 100
  {
    assert Decimal(200) == "200" && Decimal(1) == "1";
  }

  /** A client can be used again for every well-formed response that fits, cut in any way, exactly if the response
      before was not chunked: clearing the response does not clear the flag. */
  lemma ReusableIff(c: Client)
    requires c.sync && c.handled == []
    ensures !c.response.isChunk <==>
      forall r, frags :: WellFormed(r) && |HeaderBlock(r)| <= 1024 && Splits(frags, Wire(r)) ==>
        DeliversTo(Reset(c), r, frags)
  {
    hide WellFormed, HeaderBlock, Splits, Wire, DeliversTo, Reset;
    if !c.response.isChunk {
      forall r, frags | WellFormed(r) && |HeaderBlock(r)| <= 1024 && Splits(frags, Wire(r))
        ensures DeliversTo(Reset(c), r, frags)
      {
        ReusedDelivers(c, r, frags);
      }
    } else {
      ShortIsWellFormed();
      assert HeaderOk(SHORT) by { WellFormedIsOk(SHORT); }
      StuckAfterChunked(c, SHORT);
    }
  }

  lemma WellFormedIsOk(r: Response)
    requires WellFormed(r)
    ensures HeaderOk(r)
  {
  }
}
