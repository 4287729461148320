/** HTTP responses of Include/http/hpp/http_parser.hpp and the incremental client of http_client.hpp. */
module Http {
  import opened Buffers
  import opened Strings
  import opened Wrappers

  datatype Entry = Entry(key: string, value: string)

  datatype Response = Response(
    version: string, statusCode: nat, statusDesc: string, entries: seq<Entry>,
    contentLength: nat, isChunk: bool, body: string)

  const FRESH := Response("HTTP/1.1", 200, "", [], 0, false, "")

  // ---------------------------------------------------------------- text

  /** `strstr` from position `p` of a buffer: a NUL ends the text. */
  function StrStr(d: string, p: nat, t: string): (r: Option<nat>)
    ensures r.Some? ==> p <= r.value && r.value + |t| <= |d| && At(d, r.value, t)
    decreases |d| - p
  {
    if At(d, p, t) then Some(p)
    else if p >= |d| || d[p] == '\0' then None
    else StrStr(d, p + 1, t)
  }

  predicate IsDigit(c: char) { '0' <= c <= '9' }

  function DigitValue(c: char): nat
    requires IsDigit(c)
  {
    c as int - '0' as int
  }

  function DigitChar(n: nat): (c: char)
    requires n < 10
    ensures IsDigit(c) && DigitValue(c) == n
  {
    ('0' as int + n) as char
  }

  /** `%u` and `%lu`. */
  function Decimal(n: nat): (s: string)
    ensures s != "" && forall i :: 0 <= i < |s| ==> IsDigit(s[i])
  {
    if n < 10 then [DigitChar(n)] else Decimal(n / 10) + [DigitChar(n % 10)]
  }

  /** The digits in front, as a number that continues `acc`. */
  function LeadingDigits(s: string, acc: nat): nat {
    if s == "" || !IsDigit(s[0]) then acc else LeadingDigits(s[1..], 10 * acc + DigitValue(s[0]))
  }

  predicate IsWhite(c: char) { c == ' ' || c == '\t' || c == '\n' || c == '\r' || c as int == 11 || c as int == 12 }

  /** `atoi` and `atoll`, on values they can represent. */
  function Atoi(s: string): int {
    if s == "" then 0
    else if IsWhite(s[0]) then Atoi(s[1..])
    else if s[0] == '-' then 0 - LeadingDigits(s[1..], 0)
    else if s[0] == '+' then LeadingDigits(s[1..], 0)
    else LeadingDigits(s, 0)
  }

  // ---------------------------------------------------------------- printing

  predicate Shown(s: string) { forall i :: 0 <= i < |s| ==> ' ' <= s[i] }

  function SuccessDesc(code: nat): (s: string)
    ensures Shown(s)
  {
    match code
    case 101 => "Switching Protocols"
    case 200 => "OK"
    case 201 => "Created"
    case 202 => "Accepted"
    case _ => LateSuccessDesc(code)
  }

  function LateSuccessDesc(code: nat): (s: string)
    ensures Shown(s)
  {
    match code
    case 203 => "Non-Authoritative Information (for DNS)"
    case 204 => "No Content"
    case 205 => "Reset Content"
    case 206 => "Partial Content"
    case _ => "unknown"
  }

  function RedirectDesc(code: nat): (s: string)
    ensures Shown(s)
  {
    match code
    case 300 => "Multiple Choices"
    case 301 => "Moved Permanently"
    case 302 => "Moved Temporarily"
    case 303 => "See Other"
    case _ => LateRedirectDesc(code)
  }

  function LateRedirectDesc(code: nat): (s: string)
    ensures Shown(s)
  {
    match code
    case 304 => "Not Modified"
    case 305 => "Use Proxy"
    case 307 => "Redirect Keep Verb"
    case _ => "unknown"
  }

  function ClientErrorDesc(code: nat): (s: string)
    ensures Shown(s)
  {
    match code
    case 400 => "Bad Request"
    case 401 => "Unauthorized"
    case 402 => "Payment Required"
    case 403 => "Forbidden"
    case _ => MoreClientErrorDesc(code)
  }

  function MoreClientErrorDesc(code: nat): (s: string)
    ensures Shown(s)
  {
    match code
    case 404 => "Not Found"
    case 405 => "Bad Request"
    case 406 => "Not Acceptable"
    case 407 => "Proxy Authentication Required"
    case _ => LateClientErrorDesc(code)
  }

  function LateClientErrorDesc(code: nat): (s: string)
    ensures Shown(s)
  {
    match code
    case 408 => "Request Timed-Out"
    case 409 => "Conflict"
    case 410 => "Gone"
    case 411 => "Length Required"
    case _ => LastClientErrorDesc(code)
  }

  function LastClientErrorDesc(code: nat): (s: string)
    ensures Shown(s)
  {
    match code
    case 412 => "Precondition Failed"
    case 413 => "Request Entity Too Large"
    case 414 => "Request, URI Too Large"
    case 415 => "Unsupported Media Type"
    case _ => "unknown"
  }

  function ServerErrorDesc(code: nat): (s: string)
    ensures Shown(s)
  {
    match code
    case 500 => "Internal Server Error"
    case 501 => "Not Implemented"
    case 502 => "Bad Gateway"
    case _ => LateServerErrorDesc(code)
  }

  function LateServerErrorDesc(code: nat): (s: string)
    ensures Shown(s)
  {
    match code
    case 503 => "Server Unavailable"
    case 504 => "Gateway Timed-Out"
    case 505 => "HTTP Version not supported"
    case _ => "unknown"
  }

  /** `get_status_code_desc`. */
  function StatusDesc(code: nat): (s: string)
    ensures Shown(s)
  {
    if code < 300 then SuccessDesc(code)
    else if code < 400 then RedirectDesc(code)
    else if code < 500 then ClientErrorDesc(code)
    else ServerErrorDesc(code)
  }

  function EntryLine(e: Entry): string { e.key + ": " + e.value }

  function StatusLine(r: Response): string {
    r.version + " " + Decimal(r.statusCode) + " " + StatusDesc(r.statusCode)
  }

  /** The header fields in order; the length of the body is announced unless it is empty. */
  function Fields(r: Response): seq<Entry> {
    r.entries + (if r.body != "" then [Entry("Content-Length", Decimal(|r.body|))] else [])
  }

  function EntryLines(es: seq<Entry>): seq<string> {
    if es == [] then [] else [EntryLine(es[0])] + EntryLines(es[1..])
  }

  /** Lines, each closed by CRLF. */
  function Join(ls: seq<string>): string {
    if ls == [] then "" else ls[0] + "\r\n" + Join(ls[1..])
  }

  function HeaderBlock(r: Response): string { Join([StatusLine(r)] + EntryLines(Fields(r))) + "\r\n" }

  /** `response::encode`: a response without a version is not printed. */
  function Encode(r: Response): Option<string> {
    if r.version == "" then None else Some(HeaderBlock(r) + r.body)
  }

  // ---------------------------------------------------------------- decode_header

  /** One header field, already split. */
  function AddField(r: Response, key: string, value: string): Response {
    if key == "Content-Length" then r.(contentLength := Atoi(value) % 0x1_0000_0000_0000_0000)
    else if key == "Transfer-Encoding" && value == "chunked" then r.(isChunk := true)
    else r.(entries := r.entries + [Entry(key, value)])
  }

  function DecodeFields(r: Response, d: string, p: nat, limit: nat): Option<Response>
    decreases limit - p
  {
    if p >= limit then Some(r)
    else
      match StrStr(d, p, ": ")
      case None => None
      case Some(c) =>
        match StrStr(d, c + 2, "\r\n")
        case None => None
        case Some(e) => DecodeFields(AddField(r, d[p..c], d[c + 2..e]), d, e + 2, limit)
  }

  /** `response::decode_header` on the buffer from `p` on. The blank behind the status code is overwritten
      with NUL, so the buffer is part of the result. */
  function DecodeHeader(r: Response, d: string, p: nat): (o: Option<(Response, string)>)
    ensures o.Some? ==> |o.value.1| == |d|
  {
    match StrStr(d, p, "\r\n\r\n")
    case None => None
    case Some(headerEnd) =>
      match StrStr(d, p, " ")
      case None => None
      case Some(v) =>
        match StrStr(d, v + 1, " ")
        case None => None
        case Some(s) =>
          var d' := d[s := '\0'];
          var r' := r.(version := d[p..v], statusCode := Atoi(d[v + 1..s]) % 0x1_0000);
          match StrStr(d', s + 1, "\r\n")
          case None => None
          case Some(e) =>
            match DecodeFields(r'.(statusDesc := d'[s + 1..e]), d', e + 2, headerEnd + 2)
            case None => None
            case Some(r'') => Some((r'', d'))
  }

  // ---------------------------------------------------------------- htoi and chunks

  predicate IsAlnum(c: char) { IsDigit(c) || 'a' <= c <= 'z' || 'A' <= c <= 'Z' }

  /** The value `htoi` gives a letter or digit; letters beyond f count on. */
  function HexDigit(c: char): nat
    requires IsAlnum(c)
  {
    if IsDigit(c) then c as int - '0' as int
    else if 'a' <= c <= 'z' then 10 + c as int - 'a' as int
    else 10 + c as int - 'A' as int
  }

  function HexRun(s: string, n: nat): nat {
    if s == "" || !IsAlnum(s[0]) then n else HexRun(s[1..], 16 * n + HexDigit(s[0]))
  }

  function Htoi(s: string): nat {
    if |s| >= 2 && s[0] == '0' && (s[1] == 'x' || s[1] == 'X') then HexRun(s[2..], 0) else HexRun(s, 0)
  }

  /** What the chunk loop ends with: all chunks seen, or more bytes needed. Either way the position moves. */
  datatype ChunkState = ChunksDone(body: string, pos: nat) | ChunksWait(body: string, pos: nat)

  function Chunks(d: string, p: nat, body: string): (c: ChunkState)
    ensures c.pos >= p
    ensures c.ChunksDone? ==> c.pos > p
    decreases |d| - p
  {
    match Find(d, p, "\r\n")
    case None => ChunksWait(body, p)
    case Some(f) =>
      var len := Htoi(d[p..f]);
      if len > 0 then
        if |d| < f + 2 + len + 2 then ChunksWait(body, f + 2)
        else Chunks(d, f + 2 + len + 2, body + d[f + 2..f + 2 + len])
      else ChunksDone(body, f + 2 + 2)
  }

  // ---------------------------------------------------------------- the client

  datatype Step = AtHeader | AtBody | Done

  datatype Client = Client(
    sync: bool, step: Step, buf: string, pos: nat, response: Response,
    handled: seq<Response>)   // responses handed to the callback

  function FreshClient(sync: bool): Client { Client(sync, AtHeader, "", 0, FRESH, []) }

  /** The client as `sync_client::call` prepares it: `response::clear` forgets the length and the entries. */
  function Reset(c: Client): Client {
    c.(step := AtHeader, buf := "", pos := 0, response := c.response.(contentLength := 0, entries := []))
  }

  /** `recv_callback`: the client afterwards, and whether the call succeeds. */
  datatype Outcome = Outcome(ok: bool, client: Client)

  function Recv(c: Client, data: string): Outcome {
    Turn(c.(buf := c.buf + data))
  }

  /** How far the receive loop is from its end. */
  function Work(c: Client): nat {
    2 * (if c.pos <= |c.buf| then |c.buf| - c.pos + 1 else 0) + if c.step == AtBody then 1 else 0
  }

  /** The receive loop from its head on. */
  function Turn(c: Client): Outcome
    decreases Work(c), 2
  {
    if |c.buf| == c.pos then Outcome(true, c.(buf := "", pos := 0))
    else if c.step == AtBody then TurnBody(c)
    else
      match Find(c.buf, c.pos, "\r\n\r\n")
      case None =>
        // sizes are unsigned: a position past the end wraps to a huge difference
        Outcome(c.pos < |c.buf| && |c.buf| - c.pos < 1024, c)
      case Some(h) =>
        match DecodeHeader(c.response, c.buf, c.pos)
        case None => Outcome(false, c)
        case Some((r, buf)) => TurnBody(c.(response := r, buf := buf, pos := h + 4, step := AtBody))
  }

  /** The receive loop from the body part on. */
  function TurnBody(c: Client): Outcome
    requires c.step == AtBody
    decreases Work(c), 1
  {
    if !c.response.isChunk then
      if c.pos <= |c.buf| && c.response.contentLength > |c.buf| - c.pos then Outcome(true, c)
      else if c.pos > |c.buf| then Outcome(false, c)
      else
        EndBody(c.(response := c.response.(body := c.buf[c.pos..]), pos := c.pos + c.response.contentLength))
    else
      match Chunks(c.buf, c.pos, "")
      case ChunksWait(body, p) => Outcome(true, c.(response := c.response.(body := body), pos := p))
      case ChunksDone(body, p) => EndBody(c.(response := c.response.(body := body), pos := p))
  }

  function EndBody(c: Client): Outcome
    requires c.step == AtBody
    decreases Work(c), 0
  {
    if c.sync then Outcome(true, c.(step := Done))
    else Turn(c.(step := AtHeader, handled := c.handled + [c.response]))
  }

  /** Feeds fragments one by one; a failed call ends the connection. */
  function Feed(c: Client, frags: seq<string>): Outcome {
    if frags == [] then Outcome(true, c)
    else
      var n := |frags| - 1;
      var o := Feed(c, frags[..n]);
      if o.ok then Recv(o.client, frags[n]) else o
  }
}
