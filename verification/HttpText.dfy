/** Texts of Include/http/hpp/http_parser.hpp told from outside: what a response prints, the phrases of its status line,
    and the numbers that are read. */
module HttpText {
  import opened Http
  import opened HttpProofs
  import opened HttpClient
  import opened Wrappers

  // ---------------------------------------------------------------- numbers

  predicate White(s: string) {
    forall i :: 0 <= i < |s| ==>
      s[i] == ' ' || s[i] == '\t' || s[i] == '\n' || s[i] == '\r' || s[i] as int == 11 || s[i] as int == 12
  }

  predicate Digits(s: string) { forall i :: 0 <= i < |s| ==> '0' <= s[i] <= '9' }

  /** What a run of digits denotes by position. */
  function Value(s: string): nat
    requires Digits(s)
  {
    if s == "" then 0 else 10 * Value(s[..|s| - 1]) + (s[|s| - 1] as int - '0' as int)
  }

  lemma {:induction false} RunValue(s: string, rest: string, acc: nat)
    requires Digits(s) && (rest == "" || !('0' <= rest[0] <= '9'))
    ensures LeadingDigits(s + rest, acc) == acc * Power(|s|) + Value(s)
    decreases |s|
  {
    if s == "" {
      assert s + rest == rest;
    } else {
      var d := s[0] as int - '0' as int;
      assert (s + rest)[1..] == s[1..] + rest;
      RunValue(s[1..], rest, 10 * acc + d);
      ValueFront(s);
      Regroup(acc, d, Power(|s| - 1));
    }
  }

  function Power(k: nat): nat { if k == 0 then 1 else 10 * Power(k - 1) }

  lemma Regroup(acc: nat, d: nat, p: nat)
    ensures (10 * acc + d) * p == acc * (10 * p) + d * p
  {
  }

  lemma {:induction false} ValueFront(s: string)
    requires Digits(s) && s != ""
    ensures Value(s) == (s[0] as int - '0' as int) * Power(|s| - 1) + Value(s[1..])
    decreases |s|
  {
    var k := |s| - 1;
    if k > 0 {
      ValueFront(s[..k]);
      assert s[..k][1..] == s[1..][..k - 1] && s[1..][k - 1] == s[k];
      Times10((s[0] as int - '0' as int), Power(k - 1), Value(s[..k][1..]));
    } else {
      assert s[..0] == "" && s[1..] == "";
    }
  }

  lemma Times10(d: nat, p: nat, v: nat)
    ensures 10 * (d * p + v) == d * (10 * p) + 10 * v
  {
  }

  /** `atoi` on white space, a sign, digits and whatever follows them. */
  lemma {:induction false} AtoiReads(white: string, sign: string, digits: string, rest: string)
    requires White(white) && Digits(digits) && (rest == "" || !('0' <= rest[0] <= '9'))
    requires sign == "-" || sign == "+" || (sign == "" && digits != "")
    ensures var v: int := Value(digits); Atoi(white + sign + digits + rest) == if sign == "-" then -v else v
    decreases |white|
  {
    var s := white + sign + digits + rest;
    if white == "" {
      RunValue(digits, rest, 0);
      hide LeadingDigits, Value;
      if sign == "" {
        assert s == digits + rest && s[0] == digits[0];
      } else {
        assert s[0] == sign[0] && s[1..] == digits + rest;
      }
    } else {
      assert s[0] == white[0] && s[1..] == white[1..] + sign + digits + rest;
      AtoiReads(white[1..], sign, digits, rest);
    }
  }

  // ---------------------------------------------------------------- phrases

  lemma Successes()
    ensures StatusDesc(101) == "Switching Protocols" && StatusDesc(200) == "OK" && StatusDesc(201) == "Created"
    ensures StatusDesc(202) == "Accepted" && StatusDesc(203) == "Non-Authoritative Information (for DNS)"
    ensures StatusDesc(204) == "No Content" && StatusDesc(205) == "Reset Content"
    ensures StatusDesc(206) == "Partial Content"
  {
  }

  lemma Redirects()
    ensures StatusDesc(300) == "Multiple Choices" && StatusDesc(301) == "Moved Permanently"
    ensures StatusDesc(302) == "Moved Temporarily" && StatusDesc(303) == "See Other"
    ensures StatusDesc(304) == "Not Modified" && StatusDesc(305) == "Use Proxy"
    ensures StatusDesc(307) == "Redirect Keep Verb"
  {
  }

  lemma ClientErrors()
    ensures StatusDesc(400) == "Bad Request" && StatusDesc(401) == "Unauthorized"
    ensures StatusDesc(402) == "Payment Required" && StatusDesc(403) == "Forbidden"
    ensures StatusDesc(404) == "Not Found" && StatusDesc(405) == "Bad Request"
    ensures StatusDesc(406) == "Not Acceptable" && StatusDesc(407) == "Proxy Authentication Required"
  {
  }

  lemma LateClientErrors()
    ensures StatusDesc(408) == "Request Timed-Out" && StatusDesc(409) == "Conflict" && StatusDesc(410) == "Gone"
    ensures StatusDesc(411) == "Length Required" && StatusDesc(412) == "Precondition Failed"
    ensures StatusDesc(413) == "Request Entity Too Large" && StatusDesc(414) == "Request, URI Too Large"
    ensures StatusDesc(415) == "Unsupported Media Type"
  {
  }

  lemma ServerErrors()
    ensures StatusDesc(500) == "Internal Server Error" && StatusDesc(501) == "Not Implemented"
    ensures StatusDesc(502) == "Bad Gateway" && StatusDesc(503) == "Server Unavailable"
    ensures StatusDesc(504) == "Gateway Timed-Out" && StatusDesc(505) == "HTTP Version not supported"
  {
  }

  /** Every other code is unknown. */
  predicate Known(code: nat) {
    || code == 101 || 200 <= code <= 206 || 300 <= code <= 305 || code == 307 || 400 <= code <= 415
    || 500 <= code <= 505
  }

  lemma OthersAreUnknown(code: nat)
    requires !Known(code)
    ensures StatusDesc(code) == "unknown"
  {
  }

  // ---------------------------------------------------------------- the printed response

  /** What is printed: version, code and phrase with a blank between them, a line for every entry, the length of a body
      that is there, a blank line and the body. Lines end in CR and LF. */
  lemma Printed(r: Response)
    requires r.version != ""
    ensures Encode(r) == Some(
      r.version + " " + Decimal(r.statusCode) + " " + StatusDesc(r.statusCode) + "\r\n" + EntryText(r.entries)
        + (if |r.body| > 0 then "Content-Length: " + Decimal(|r.body|) + "\r\n" else "") + "\r\n" + r.body)
  {
    EncodedParts(r);
    EntryTextIs(r.entries);
    assert StatusLine(r) == r.version + " " + Decimal(r.statusCode) + " " + StatusDesc(r.statusCode);
    hide Decimal, StatusDesc, HeaderBlock, EntryText, Join;
  }

  function EntryText(es: seq<Entry>): string {
    if es == [] then "" else EntryText(es[..|es| - 1]) + (es[|es| - 1].key + ": " + es[|es| - 1].value + "\r\n")
  }

  lemma {:induction false} EntryTextIs(es: seq<Entry>)
    ensures Join(EntryLines(es)) == EntryText(es)
    decreases |es|
  {
    if es != [] {
      var k := |es| - 1;
      EntryTextIs(es[..k]);
      assert es == es[..k] + es[k..];
      JoinAppend(es[..k], es[k..]);
      LinesFrom(es, k);
      assert es[k + 1..] == [];
      hide EntryText;
    }
  }
}
