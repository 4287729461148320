/** The response object of Include/http/hpp/http_parser.hpp and the client of http_client.hpp, loop by loop. */
module HttpClient {
  import opened Buffers
  import opened Strings
  import opened Wrappers
  import opened Http

  /** `htoi` on a text closed by NUL. */
  method ReadHex(s: string) returns (n: nat)
    ensures n == Htoi(s)
  {
    n := 0;
    var i := 0;
    if |s| >= 2 && s[0] == '0' && (s[1] == 'x' || s[1] == 'X') {
      i := 2;
    }
    assert i == 0 ==> s[i..] == s;
    while i < |s| && IsAlnum(s[i])
      invariant i <= |s| && HexRun(s[i..], n) == Htoi(s)
    {
      assert s[i..][1..] == s[i + 1..];
      if '0' <= s[i] <= '9' {
        n := 16 * n + (s[i] as int - '0' as int);
      } else if 'a' <= s[i] <= 'z' {
        n := 16 * n + (10 + s[i] as int - 'a' as int);
      } else {
        n := 16 * n + (10 + s[i] as int - 'A' as int);
      }
      i := i + 1;
    }
  }

  class ResponseMessage {
    var version: string
    var statusCode: nat
    var statusDesc: string
    var entries: seq<Entry>
    var contentLength: nat
    var isChunk: bool
    var body: string

    constructor ()
      ensures Value() == FRESH
    {
      version, statusCode, statusDesc, entries := "HTTP/1.1", 200, "", [];
      contentLength, isChunk, body := 0, false, "";
    }

    function Value(): Response
      reads this
    {
      Response(version, statusCode, statusDesc, entries, contentLength, isChunk, body)
    }

    method AddEntry(e: Entry)
      modifies this`entries
      ensures entries == old(entries) + [e]
    {
      entries := entries + [e];
    }

    /** `clear`: the chunk flag and the body stay. */
    method Clear()
      modifies `contentLength, `entries
      ensures Value() == old(Value()).(contentLength := 0, entries := [])
    {
      contentLength := 0;
      entries := [];
    }

    /** `decode_header`: fills the fields from the text at `start`; the buffer comes back with the NUL written into
        it. */
    method DecodeHeader(text: string, start: nat) returns (ok: bool, buf: string)
      modifies this
      ensures ok == Http.DecodeHeader(old(Value()), text, start).Some?
      ensures ok ==> Http.DecodeHeader(old(Value()), text, start).value == (Value(), buf)
    {
      hide Find, StrStr, Atoi, DecodeFields;
      buf := text;
      ok := false;
      var headerEnd := StrStr(buf, start, "\r\n\r\n");
      if headerEnd == None { return; }
      var data := start;

      var tmp := StrStr(buf, data, " ");
      if tmp == None { return; }
      version := buf[data..tmp.value];
      data := tmp.value + 1;

      tmp := StrStr(buf, data, " ");
      if tmp == None { return; }
      statusCode := Atoi(buf[data..tmp.value]) % 0x1_0000;
      buf := buf[tmp.value := '\0'];
      data := tmp.value + 1;

      tmp := StrStr(buf, data, "\r\n");
      if tmp == None { return; }
      statusDesc := buf[data..tmp.value];
      data := tmp.value + 2;

      ok := DecodeEntries(buf, data, headerEnd.value + 2);
    }

    method DecodeEntries(buf: string, start: nat, limit: nat) returns (ok: bool)
      modifies this
      ensures ok == DecodeFields(old(Value()), buf, start, limit).Some?
      ensures ok ==> DecodeFields(old(Value()), buf, start, limit).value == Value()
    {
      hide Find, StrStr, Atoi;
      ghost var goal := DecodeFields(Value(), buf, start, limit);
      var data := start;
      while data < limit
        invariant DecodeFields(Value(), buf, data, limit) == goal
      {
        var tmp := StrStr(buf, data, ": ");
        if tmp == None { return false; }
        var key := buf[data..tmp.value];
        data := tmp.value + 2;

        tmp := StrStr(buf, data, "\r\n");
        if tmp == None { return false; }
        var value := buf[data..tmp.value];
        data := tmp.value + 2;

        if key == "Content-Length" {
          contentLength := Atoi(value) % 0x1_0000_0000_0000_0000;
        } else if key == "Transfer-Encoding" && value == "chunked" {
          isChunk := true;
        } else {
          AddEntry(Entry(key, value));
        }
      }
      ok := true;
    }

    /** `encode`: nothing is printed without a version. */
    method Encode() returns (ok: bool, buf: string)
      ensures ok == Http.Encode(Value()).Some?
      ensures ok ==> buf == Http.Encode(Value()).value
    {
      hide Decimal, StatusDesc;
      buf := "";
      ok := version != "";
      if !ok { return; }
      buf := buf + version + " ";
      buf := buf + Decimal(statusCode);
      buf := buf + " ";
      buf := buf + StatusDesc(statusCode);
      buf := buf + "\r\n";
      ghost var r := Value();
      ghost var first := buf;
      assert first == StatusLine(r) + "\r\n";
      var i := 0;
      while i < |entries|
        invariant i <= |entries| && buf + Join(EntryLines(entries[i..])) == first + Join(EntryLines(entries))
      {
        LinesFrom(entries, i);
        buf := buf + (entries[i].key + ": " + entries[i].value + "\r\n");
        i := i + 1;
      }
      assert entries[i..] == [];
      assert buf == first + Join(EntryLines(entries));
      if |body| > 0 {
        buf := buf + "Content-Length: ";
        buf := buf + Decimal(|body|);
        buf := buf + "\r\n";
      }
      buf := buf + "\r\n";
      buf := buf + body;
      EncodedParts(r);
    }
  }

  lemma LinesFrom(es: seq<Entry>, i: nat)
    requires i < |es|
    ensures Join(EntryLines(es[i..])) == es[i].key + ": " + es[i].value + "\r\n" + Join(EntryLines(es[i + 1..]))
  {
    assert es[i..][1..] == es[i + 1..];
    assert EntryLines(es[i..])[1..] == EntryLines(es[i + 1..]);
  }

  lemma {:induction false} JoinAppend(a: seq<Entry>, b: seq<Entry>)
    ensures Join(EntryLines(a + b)) == Join(EntryLines(a)) + Join(EntryLines(b))
    decreases |a|
  {
    if a == [] {
      assert a + b == b;
    } else {
      assert (a + b)[1..] == a[1..] + b;
      JoinAppend(a[1..], b);
      LinesFrom(a + b, 0);
      LinesFrom(a, 0);
      assert (a + b)[0..] == a + b && a[0..] == a;
    }
  }

  /** The printed text, piece by piece. */
  lemma EncodedParts(r: Response)
    ensures HeaderBlock(r) + r.body ==
      StatusLine(r) + "\r\n" + Join(EntryLines(r.entries))
        + (if |r.body| > 0 then "Content-Length: " + Decimal(|r.body|) + "\r\n" else "") + "\r\n" + r.body
  {
    hide Decimal, StatusLine, EntryLines;
    var last := if r.body != "" then [Entry("Content-Length", Decimal(|r.body|))] else [];
    LastLine(r, last);
    HeaderParts(r, last);
    hide Join, HeaderBlock;
  }

  lemma HeaderParts(r: Response, last: seq<Entry>)
    requires Fields(r) == r.entries + last
    ensures HeaderBlock(r)
         == StatusLine(r) + "\r\n" + Join(EntryLines(r.entries)) + Join(EntryLines(last)) + "\r\n"
  {
    hide Fields, StatusLine, EntryLines;
    JoinAppend(r.entries, last);
    assert ([StatusLine(r)] + EntryLines(Fields(r)))[1..] == EntryLines(Fields(r));
  }

  lemma LastLine(r: Response, last: seq<Entry>)
    requires last == if r.body != "" then [Entry("Content-Length", Decimal(|r.body|))] else []
    ensures Join(EntryLines(last)) == if |r.body| > 0 then "Content-Length: " + Decimal(|r.body|) + "\r\n" else ""
  {
    hide Decimal;
    if last != [] {
      LinesFrom(last, 0);
      assert last[1..] == [] && last[0..] == last;
    }
  }

  /** No line end from `p` on: the chunk loop waits. */
  lemma ChunksStop(d: string, p: nat, body: string)
    requires Find(d, p, "\r\n") == None
    ensures Chunks(d, p, body) == ChunksWait(body, p)
  {
    hide Find;
  }

  /** What the chunk loop does with the size line that ends at `f`. */
  lemma ChunksTurn(d: string, p: nat, body: string, f: nat, len: nat)
    requires Find(d, p, "\r\n") == Some(f) && Htoi(d[p..f]) == len
    ensures Chunks(d, p, body) ==
      if len == 0 then ChunksDone(body, f + 2 + 2)
      else if |d| < f + 2 + len + 2 then ChunksWait(body, f + 2)
      else Chunks(d, f + 2 + len + 2, body + d[f + 2..f + 2 + len])
  {
    hide Find, Htoi, At;
  }

  /** The branches of the receive loop, one by one. */
  lemma TurnUsedUp(c: Client)
    requires |c.buf| == c.pos
    ensures Turn(c) == Outcome(true, c.(buf := "", pos := 0))
  {
  }

  lemma TurnNoHeader(c: Client)
    requires |c.buf| != c.pos && c.step != AtBody && Find(c.buf, c.pos, "\r\n\r\n") == None
    ensures Turn(c) == Outcome(c.pos < |c.buf| && |c.buf| - c.pos < 1024, c)
  {
    hide Find, Http.DecodeHeader, TurnBody;
  }

  lemma TurnHeader(c: Client, h: nat)
    requires |c.buf| != c.pos && c.step != AtBody && Find(c.buf, c.pos, "\r\n\r\n") == Some(h)
    ensures Turn(c) ==
      match Http.DecodeHeader(c.response, c.buf, c.pos)
      case None => Outcome(false, c)
      case Some((r, buf)) => TurnBody(c.(response := r, buf := buf, pos := h + 4, step := AtBody))
  {
    hide Find, Http.DecodeHeader, TurnBody;
  }

  lemma TurnAtBody(c: Client)
    requires |c.buf| != c.pos && c.step == AtBody
    ensures Turn(c) == TurnBody(c)
  {
    hide TurnBody;
  }

  class ClientBase {
    const sync: bool
    const response: ResponseMessage
    var step: Step
    var buf: string
    var pos: nat
    var handled: seq<Response>

    constructor (sync: bool)
      ensures this.sync == sync && fresh(response) && State() == FreshClient(sync)
    {
      this.sync := sync;
      response := new ResponseMessage();
      step, buf, pos, handled := AtHeader, "", 0, [];
    }

    function State(): Client
      reads this, response
    {
      Client(sync, step, buf, pos, response.Value(), handled)
    }

    /** What `sync_client::call` clears before it waits for the response. */
    method PrepareCall()
      modifies this, response
      ensures State() == Reset(old(State()))
    {
      step := AtHeader;
      buf := "";
      pos := 0;
      response.Clear();
    }

    /** The body part of the loop: whether the position is inside the buffer, and whether the body is all there. */
    method ReadBody() returns (readable: bool, complete: bool)
      requires step == AtBody
      modifies `pos, response`body
      ensures TurnBody(old(State())) ==
        if !readable then Outcome(false, old(State()))
        else if !complete then Outcome(true, State())
        else EndBody(State())
      ensures pos >= old(pos)
    {
      hide Find, EndBody;
      readable, complete := true, false;
      if !response.isChunk {
        if pos > |buf| {
          readable := false;
          return;
        }
        if response.contentLength > |buf| - pos {
          return;
        }
        response.body := buf[pos..];
        pos := pos + response.contentLength;
      } else {
        complete := ReadChunks();
        if !complete { return; }
      }
      complete := true;
    }

    method ReadChunks() returns (complete: bool)
      modifies `pos, response`body
      ensures Chunks(buf, old(pos), "") ==
        if complete then ChunksDone(response.body, pos) else ChunksWait(response.body, pos)
    {
      hide Find, Htoi, At, Chunks;
      response.body := "";
      ghost var goal := Chunks(buf, pos, "");
      while true
        invariant Chunks(buf, pos, response.body) == goal
        decreases |buf| - pos
      {
        var flag := Find(buf, pos, "\r\n");
        if flag != None {
          var len := ReadHex(buf[pos..flag.value]);
          ChunksTurn(buf, pos, response.body, flag.value, len);
          pos := flag.value + 2;
          if len > 0 {
            if |buf| < pos + len + 2 {
              return false;
            }
            response.body := response.body + buf[pos..pos + len];
            pos := pos + len + 2;
          } else {
            pos := pos + len + 2;
            return true;
          }
        } else {
          ChunksStop(buf, pos, response.body);
          return false;
        }
      }
    }

    /** The header part of the loop: whether the header is complete, and whether it could be read. */
    method ReadHeader() returns (complete: bool, decoded: bool)
      requires |buf| != pos && step != AtBody
      modifies this, response
      ensures !complete ==> State() == old(State())
                            && Turn(State()) == Outcome(pos < |buf| && |buf| - pos < 1024, State())
      ensures complete && !decoded ==> !Turn(old(State())).ok
      ensures complete && decoded ==> step == AtBody && Turn(old(State())) == TurnBody(State())
                                      && |buf| == old(|buf|) && old(pos) < pos <= |buf|
    {
      hide Find, StrStr, Http.DecodeHeader, Turn, TurnBody;
      ghost var before := State();
      complete, decoded := false, false;
      var end := Find(buf, pos, "\r\n\r\n");
      if end == None {
        TurnNoHeader(before);
        return;
      }
      TurnHeader(before, end.value);
      complete := true;
      var text;
      decoded, text := response.DecodeHeader(buf, pos);
      if decoded {
        buf := text;
        pos := pos + (end.value - pos) + 4;
        step := AtBody;
      }
    }

    /** One call of the receive callback. A failed call closes the connection; the client is then no longer used. */
    method RecvCallback(data: string) returns (ok: bool)
      modifies this, response
      ensures ok == Recv(old(State()), data).ok
      ensures ok ==> State() == Recv(old(State()), data).client
    {
      hide Turn, TurnBody;
      ghost var goal := Recv(State(), data);
      buf := buf + data;
      while true
        invariant Turn(State()) == goal
        decreases Work(State())
      {
        if |buf| == pos {
          TurnUsedUp(State());
          buf := "";
          pos := 0;
          return true;
        }
        if step == AtHeader || step == Done {
          var complete, decoded := ReadHeader();
          if !complete {
            return pos <= |buf| && |buf| - pos < 1024;
          }
          if !decoded {
            return false;
          }
        } else {
          TurnAtBody(State());
        }
        var readable, complete := ReadBody();
        if !readable {
          return false;
        }
        if !complete {
          return true;
        }
        if sync {
          step := Done;
          return true;
        } else {
          step := AtHeader;
          handled := handled + [response.Value()];
        }
      }
    }
  }
}
