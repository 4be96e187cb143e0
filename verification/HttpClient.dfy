/** The HTTP client: the request it builds and the response parser. */
module HttpClient {
  import opened Primitives
  import opened HttpText
  import HttpServer

  const MAX_STATUS_LINE: nat := 2048
  const MAX_HEADER_BLOCK: nat := 8192
  const MAX_BODY: nat := 262144
  const MAX_U64: nat := 0xffff_ffff_ffff_ffff

  // ---------------------------------------------------------------- the request

  datatype TargetError = EmptyTarget | MissingLeadingSlash | InvalidTargetByte

  datatype HostError = EmptyHost | InvalidHostByte

  predicate PlainBytes(s: string) { forall i | 0 <= i < |s| :: s[i] != ' ' && !HttpServer.IsControl(s[i]) }

  function TargetProblem(target: string): Option<TargetError> {
    if target == "" then Some(EmptyTarget)
    else if target[0] != '/' then Some(MissingLeadingSlash)
    else if !PlainBytes(target) then Some(InvalidTargetByte)
    else None
  }

  function HostProblem(host: string): Option<HostError> {
    if host == "" then Some(EmptyHost) else if !PlainBytes(host) then Some(InvalidHostByte) else None
  }

  method AllPlain(s: string) returns (all: bool)
    ensures all == PlainBytes(s)
  {
    for i := 0 to |s|
      invariant forall j | 0 <= j < i :: s[j] != ' ' && !HttpServer.IsControl(s[j])
    {
      if s[i] == ' ' || HttpServer.IsControl(s[i]) {
        return false;
      }
    }
    all := true;
  }

  function RequestLine(target: string): string { "GET " + target + " HTTP/1.0" }

  function HostLine(host: string): string { "Host: " + host }

  const CONNECTION_LINE: string := "Connection: close"

  function RequestText(host: string, target: string): string {
    RequestLine(target) + CRLF + HostLine(host) + CRLF + CONNECTION_LINE + CRLF + CRLF
  }

  /** `buildHttpGetRequest`. */
  method BuildHttpGetRequest(host: string, target: string) returns (r: Option<string>)
    ensures r == if TargetProblem(target).Some? || HostProblem(host).Some? then None
                 else Some(RequestText(host, target))
  {
    var plainTarget := AllPlain(target);
    var plainHost := AllPlain(host);
    if target == "" || target[0] != '/' || !plainTarget || host == "" || !plainHost {
      return None;
    }
    var text := "GET ";
    text := text + target;
    text := text + " HTTP/1.0\r\n";
    text := text + "Host: ";
    text := text + host;
    text := text + "\r\n";
    text := text + "Connection: close\r\n";
    text := text + "\r\n";
    assert text == RequestText(host, target);
    r := Some(text);
  }

  function HeadLines(host: string, target: string): seq<string> {
    [RequestLine(target), HostLine(host), CONNECTION_LINE]
  }

  lemma TextIsRendered(host: string, target: string)
    ensures RequestText(host, target) == Render(HeadLines(host, target))
  {
    var lines := HeadLines(host, target);
    var rest := CONNECTION_LINE + CRLF + CRLF;
    assert lines[1..] == [HostLine(host), CONNECTION_LINE] && lines[1..][1..] == [CONNECTION_LINE]
           && lines[1..][1..][1..] == [];
    assert Render([CONNECTION_LINE]) == rest by { assert [CONNECTION_LINE][1..] == []; }
    assert Render(lines[1..]) == HostLine(host) + CRLF + rest;
    assert RequestText(host, target) == RequestLine(target) + CRLF + (HostLine(host) + CRLF + rest);
  }

  lemma LinesAreClean(host: string, target: string)
    requires TargetProblem(target).None? && HostProblem(host).None?
    ensures Renderable(HeadLines(host, target))
    ensures '\0' !in RequestText(host, target)
  {
    assert CleanLine(RequestLine(target)) && CleanLine(HostLine(host)) && CleanLine(CONNECTION_LINE);
  }

  lemma RequestLineParses(target: string)
    requires TargetProblem(target).None?
    ensures HttpServer.ParseRequestLine(RequestLine(target))
            == HttpServer.Complete(HttpServer.Request("GET", target, "HTTP/1.0"))
  {
    hide Fields;
    var rest := target + [' '] + "HTTP/1.0";
    assert RequestLine(target) == "GET" + [' '] + rest;
    FieldThen("GET", ' ', rest);
    FieldThen(target, ' ', "HTTP/1.0");
    OneField("HTTP/1.0", ' ');
    assert Fields(RequestLine(target), ' ') == ["GET", target, "HTTP/1.0"];
    assert "HTTP/1.0"[..5] == "HTTP/";
  }

  lemma HostIsToken()
    ensures HttpServer.IsToken("Host") && Without("Host", ':')
  {
  }

  lemma HostIsValue(host: string)
    requires HostProblem(host).None?
    ensures HttpServer.SkipBlanks(" " + host) == host && HttpServer.PrintableValue(host)
  {
    assert (" " + host)[1..] == host;
    assert HttpServer.SkipBlanks(" " + host) == HttpServer.SkipBlanks(host);
  }

  lemma HostHeaderPasses(host: string)
    requires HostProblem(host).None?
    ensures HttpServer.CheckHeader(HostLine(host), false) == Some(false)
  {
    hide First, HttpServer.Lower, HttpServer.IsToken, Without, HttpServer.SkipBlanks, HttpServer.PrintableValue;
    var line := HostLine(host);
    var rest := ": " + host;
    HostIsToken();
    HostIsValue(host);
    assert line == "Host" + rest;
    FirstSkips("Host", rest, ":");
    ColonFirst(" " + host);
    assert rest == ":" + (" " + host);
    assert line[..4] == "Host" && line[5..] == " " + host;
  }

  lemma ColonFirst(rest: string)
    ensures First(":" + rest, ":") == Some(0)
  {
    assert (":" + rest)[..1] == ":";
  }

  lemma ConnectionIsToken()
    ensures HttpServer.IsToken("Connection") && Without("Connection", ':')
  {
  }

  lemma CloseIsValue()
    ensures HttpServer.SkipBlanks(" close") == "close" && HttpServer.PrintableValue("close")
  {
    assert " close"[1..] == "close";
    assert HttpServer.SkipBlanks(" close") == HttpServer.SkipBlanks("close");
  }

  lemma ConnectionHeaderPasses()
    ensures HttpServer.CheckHeader(CONNECTION_LINE, false) == Some(false)
  {
    hide First, HttpServer.Lower, HttpServer.IsToken, Without, HttpServer.SkipBlanks, HttpServer.PrintableValue;
    var rest := ": close";
    ConnectionIsToken();
    CloseIsValue();
    assert CONNECTION_LINE == "Connection" + rest;
    FirstSkips("Connection", rest, ":");
    ColonFirst(" close");
    assert rest == ":" + " close";
    assert CONNECTION_LINE[..10] == "Connection" && CONNECTION_LINE[11..] == " close";
  }

  lemma HeadParses(host: string, target: string)
    requires TargetProblem(target).None? && HostProblem(host).None?
    ensures HttpServer.ParseHead(RequestText(host, target))
            == HttpServer.Complete(HttpServer.Request("GET", target, "HTTP/1.0"))
  {
    hide Lines, Render, HttpServer.ParseRequestLine, HttpServer.CheckHeader;
    TextIsRendered(host, target);
    LinesAreClean(host, target);
    LinesOfRender(HeadLines(host, target));
    RequestLineParses(target);
    HostHeaderPasses(host);
    ConnectionHeaderPasses();
    var lines := HeadLines(host, target) + [""];
    var headers := lines[1..|lines| - 1];
    assert headers == [HostLine(host), CONNECTION_LINE];
    TwoHeaders(HostLine(host), CONNECTION_LINE);
  }

  lemma TwoHeaders(a: string, b: string)
    requires HttpServer.CheckHeader(a, false) == Some(false) && HttpServer.CheckHeader(b, false) == Some(false)
    ensures HttpServer.CheckHeaders([a, b], false) == Some(false)
  {
    hide HttpServer.CheckHeader;
    assert [a, b][1..] == [b] && [b][1..] == [];
    assert HttpServer.CheckHeaders([b], false) == Some(false);
  }

  lemma FirstLineEnds(host: string, target: string)
    requires Renderable(HeadLines(host, target))
    ensures First(RequestText(host, target), CRLF) == Some(|RequestLine(target)|)
  {
    hide First;
    var rest := HostLine(host) + CRLF + CONNECTION_LINE + CRLF + CRLF;
    assert RequestText(host, target) == RequestLine(target) + CRLF + rest;
    assert RequestLine(target) in HeadLines(host, target);
    FirstCrlf(RequestLine(target), rest);
  }

  /**
   What the client builds the server accepts, with the same target, exactly when the line and the
   block are within the server's limits; otherwise it is too large.
   */
  lemma BuiltRequestParses(host: string, target: string)
    requires TargetProblem(target).None? && HostProblem(host).None?
    ensures var r := HttpServer.Parse(RequestText(host, target));
            if |target| + 15 <= HttpServer.MAX_REQUEST_LINE && |target| + |host| + 44 <= HttpServer.MAX_HEADER_BLOCK
            then r == HttpServer.Complete(HttpServer.Request("GET", target, "HTTP/1.0"))
            else r == HttpServer.TooLarge
  {
    hide First, HttpServer.ParseHead, Render, Renderable;
    var text := RequestText(host, target);
    TextIsRendered(host, target);
    LinesAreClean(host, target);
    BlankLineOfRender(HeadLines(host, target));
    FirstLineEnds(host, target);
    HeadParses(host, target);
    assert text[..|text|] == text;
  }

  /** A request that fills the server's buffer hides whatever follows it. */
  lemma CapHidesTheRest(host: string, target: string, more: string)
    requires TargetProblem(target).None? && HostProblem(host).None? && more != ""
    requires |target| + 15 <= HttpServer.MAX_REQUEST_LINE && |target| + |host| + 44 == HttpServer.MAX_HEADER_BLOCK
    ensures var stream := RequestText(host, target) + more;
            && HttpServer.Parse(Take(stream, HttpServer.MAX_HEADER_BLOCK)).Complete?
            && HttpServer.Parse(stream) == HttpServer.Malformed
  {
    hide HttpServer.Parse;
    var text := RequestText(host, target);
    BuiltRequestParses(host, target);
    assert Take(text + more, HttpServer.MAX_HEADER_BLOCK) == text;
    HttpServer.NothingFollows(text, more);
  }

  // ---------------------------------------------------------------- Content-Length

  predicate AllDigits(s: string) { s != "" && forall i | 0 <= i < |s| :: HttpServer.IsDigit(s[i]) }

  function Digit(c: char): nat
    requires HttpServer.IsDigit(c)
  {
    c as int - '0' as int
  }

  /** The number the digits stand for, without any bound. */
  function Decimal(s: string): nat
    requires forall i | 0 <= i < |s| :: HttpServer.IsDigit(s[i])
  {
    if s == "" then 0 else 10 * Decimal(s[..|s| - 1]) + Digit(s[|s| - 1])
  }

  /** More digits never make the number smaller. */
  lemma {:induction false} DecimalGrows(s: string, n: nat)
    requires n <= |s| && forall i | 0 <= i < |s| :: HttpServer.IsDigit(s[i])
    ensures Decimal(s[..n]) <= Decimal(s)
    decreases |s|
  {
    if n < |s| {
      assert s[..|s| - 1][..n] == s[..n];
      DecimalGrows(s[..|s| - 1], n);
    } else {
      assert s[..n] == s;
    }
  }

  /** The digit loop in 64-bit arithmetic: the exact value, or the overflow flag exactly when it does not fit. */
  method ParseDigits(s: string) returns (value: nat, overflowed: bool)
    requires AllDigits(s)
    ensures overflowed <==> Decimal(s) > MAX_U64
    ensures !overflowed ==> value == Decimal(s)
    ensures value <= MAX_U64
  {
    value, overflowed := 0, false;
    for i := 0 to |s|
      invariant value == Decimal(s[..i]) && value <= MAX_U64
    {
      var d := Digit(s[i]);
      assert s[..i + 1][..i] == s[..i];
      assert Decimal(s[..i + 1]) == 10 * value + d;
      if value > (MAX_U64 - d) / 10 {
        DecimalGrows(s, i + 1);
        return value, true;
      }
      value := value * 10 + d;
    }
    assert s[..|s|] == s;
  }

  // ---------------------------------------------------------------- the response

  datatype Response =
    | Incomplete | Complete(code: nat, body: string, lengthPresent: bool) | Malformed | TooLarge
    | UnsupportedVersion | UnsupportedTransferEncoding | Truncated

  datatype StatusLine = BadLine | OtherVersion | Code(code: nat)

  function ParseStatusLine(line: string): StatusLine {
    var space := First(line, " ");
    if space.None? || !HttpServer.ValidVersion(line[..space.value]) then BadLine
    else if line[..space.value] != "HTTP/1.0" then OtherVersion
    else
      var rest := line[space.value + 1..];
      var second := First(rest, " ");
      if rest == "" || rest[0] == ' ' || second.None? || second.value != 3 || !AllDigits(rest[..3]) then BadLine
      else
        var code := 100 * Digit(rest[0]) + 10 * Digit(rest[1]) + Digit(rest[2]);
        if code < 200 || code > 599 || !HttpServer.PrintableValue(rest[4..]) then BadLine else Code(code)
  }

  function TrimBlanks(s: string): string {
    if s != "" && (s[|s| - 1] == ' ' || s[|s| - 1] == '\t') then TrimBlanks(s[..|s| - 1]) else s
  }

  /** What the header lines so far have declared. */
  datatype Declared = Declared(transferEncoding: bool, length: Option<nat>)

  function CheckHeader(line: string, d: Declared): Option<Declared> {
    if line == "" || line[0] == ' ' || line[0] == '\t' then None
    else
      var colon := First(line, ":");
      if colon.None? || colon.value == 0 || !HttpServer.IsToken(line[..colon.value]) then None
      else
        var name := HttpServer.Lower(line[..colon.value]);
        var value := TrimBlanks(HttpServer.SkipBlanks(line[colon.value + 1..]));
        if !HttpServer.PrintableValue(value) then None
        else if name == "transfer-encoding" then Some(d.(transferEncoding := true))
        else if name == "content-length" then
          if d.length.Some? || !AllDigits(value) then None else Some(d.(length := Some(Decimal(value))))
        else Some(d)
  }

  function CheckHeaders(lines: seq<string>, d: Declared): Option<Declared> {
    if lines == [] then Some(d)
    else
      var next := CheckHeader(lines[0], d);
      if next.None? then None else CheckHeaders(lines[1..], next.value)
  }

  function Waiting(closed: bool): Response { if closed then Truncated else Incomplete }

  /** The body rules, once the head is understood. */
  function ParseBody(code: nat, d: Declared, extra: string, closed: bool): Response {
    if d.transferEncoding then UnsupportedTransferEncoding
    else if d.length.Some? then
      if d.length.value > MAX_BODY then TooLarge
      else if |extra| > d.length.value then Malformed
      else if |extra| < d.length.value then Waiting(closed)
      else Complete(code, extra, true)
    else if |extra| > MAX_BODY then TooLarge
    else if !closed then Incomplete
    else Complete(code, extra, false)
  }

  function ParseHeaders(block: string): Option<Declared> {
    if '\0' in block then None
    else
      var lines := Lines(block);
      if lines.None? || |lines.value| < 2 then (if lines.None? then None else Some(Declared(false, None)))
      else CheckHeaders(lines.value[1..|lines.value| - 1], Declared(false, None))
  }

  function Parse(view: string, closed: bool): Response {
    var end := First(view, CRLF);
    if end.None? then if |view| > MAX_STATUS_LINE then TooLarge else Waiting(closed)
    else if end.value + 2 > MAX_STATUS_LINE then TooLarge
    else
      match ParseStatusLine(view[..end.value])
      case BadLine => Malformed
      case OtherVersion => UnsupportedVersion
      case Code(code) =>
        var terminator := First(view, BLANK_LINE);
        if terminator.None? then if |view| > MAX_HEADER_BLOCK then TooLarge else Waiting(closed)
        else if terminator.value + 4 > MAX_HEADER_BLOCK then TooLarge
        else
          var declared := ParseHeaders(view[..terminator.value + 4]);
          if declared.None? then Malformed else ParseBody(code, declared.value, view[terminator.value + 4..], closed)
  }

  // ---------------------------------------------------------------- the loops

  method TrimTrailing(s: string) returns (out: string)
    ensures out == TrimBlanks(s)
  {
    out := s;
    while out != "" && (out[|out| - 1] == ' ' || out[|out| - 1] == '\t')
      invariant TrimBlanks(out) == TrimBlanks(s)
      decreases |out|
    {
      out := out[..|out| - 1];
    }
  }

  /** The length of a body as the source keeps it: 64 bits and an overflow flag. */
  datatype Scanned = Scanned(transferEncoding: bool, seenLength: bool, length: nat, overflowed: bool)

  /** The flags stand for what was declared. */
  predicate Stands(s: Scanned, d: Declared) {
    && s.transferEncoding == d.transferEncoding && s.seenLength == d.length.Some?
    && (s.seenLength ==> (s.overflowed <==> d.length.value > MAX_U64) && (!s.overflowed ==> s.length == d.length.value))
  }

  method ScanHeader(line: string, s: Scanned, ghost d: Declared) returns (r: Option<Scanned>)
    requires Stands(s, d)
    ensures r.Some? <==> CheckHeader(line, d).Some?
    ensures r.Some? ==> Stands(r.value, CheckHeader(line, d).value)
  {
    hide First, HttpServer.IsToken, HttpServer.SkipBlanks, HttpServer.PrintableValue, HttpServer.Lower, TrimBlanks,
         Decimal;
    if line == "" || line[0] == ' ' || line[0] == '\t' {
      return None;
    }
    var colon := First(line, ":");
    if colon.None? || colon.value == 0 {
      return None;
    }
    var token := HttpServer.AllTokenChars(line[..colon.value]);
    if !token {
      return None;
    }
    var value := HttpServer.FieldValue(line[colon.value + 1..]);
    value := TrimTrailing(value);
    var printable := HttpServer.AllPrintable(value);
    if !printable {
      return None;
    }
    var name := HttpServer.ToLower(line[..colon.value]);
    if name == "transfer-encoding" {
      return Some(s.(transferEncoding := true));
    }
    if name == "content-length" {
      if s.seenLength || !AllDigits(value) {
        return None;
      }
      var length, overflowed := ParseDigits(value);
      return Some(s.(seenLength := true, length := length, overflowed := overflowed));
    }
    r := Some(s);
  }

  method ScanHeaders(block: string) returns (r: Option<Scanned>)
    ensures r.Some? <==> ParseHeaders(block).Some?
    ensures r.Some? ==> Stands(r.value, ParseHeaders(block).value)
  {
    hide Lines, CheckHeader;
    if '\0' in block {
      return None;
    }
    var lines := SplitLines(block);
    if lines.None? {
      return None;
    }
    var s := Scanned(false, false, 0, false);
    ghost var d := Declared(false, None);
    if |lines.value| < 2 {
      return Some(s);
    }
    var headers := lines.value[1..|lines.value| - 1];
    assert headers[0..] == headers;
    for i := 0 to |headers|
      invariant Stands(s, d) && CheckHeaders(headers[i..], d) == CheckHeaders(headers, Declared(false, None))
    {
      assert headers[i..][1..] == headers[i + 1..];
      var next := ScanHeader(headers[i], s, d);
      if next.None? {
        return None;
      }
      s := next.value;
      d := CheckHeader(headers[i], d).value;
    }
    r := Some(s);
  }

  /** `parseHttpResponse`: the flags of the source lead to the verdict on the exact length. */
  method ParseHttpResponse(view: string, closed: bool) returns (r: Response)
    ensures r == Parse(view, closed)
  {
    hide First, ParseStatusLine, ParseHeaders;
    var end := First(view, CRLF);
    if end.None? {
      return if |view| > MAX_STATUS_LINE then TooLarge else Waiting(closed);
    }
    if end.value + 2 > MAX_STATUS_LINE {
      return TooLarge;
    }
    var status := ParseStatusLine(view[..end.value]);
    if status.BadLine? {
      return Malformed;
    }
    if status.OtherVersion? {
      return UnsupportedVersion;
    }
    var terminator := First(view, BLANK_LINE);
    if terminator.None? {
      return if |view| > MAX_HEADER_BLOCK then TooLarge else Waiting(closed);
    }
    if terminator.value + 4 > MAX_HEADER_BLOCK {
      return TooLarge;
    }
    var s := ScanHeaders(view[..terminator.value + 4]);
    if s.None? {
      return Malformed;
    }
    var extra := view[terminator.value + 4..];
    if s.value.transferEncoding {
      return UnsupportedTransferEncoding;
    }
    if s.value.seenLength {
      if s.value.overflowed || s.value.length > MAX_BODY {
        return TooLarge;
      }
      if |extra| > s.value.length {
        return Malformed;
      }
      if |extra| < s.value.length {
        return Waiting(closed);
      }
      return Complete(status.code, extra, true);
    }
    if |extra| > MAX_BODY {
      return TooLarge;
    }
    if !closed {
      return Incomplete;
    }
    r := Complete(status.code, extra, false);
  }

  // ---------------------------------------------------------------- verdicts over time

  predicate IsError(r: Response) {
    r.Malformed? || r.TooLarge? || r.UnsupportedVersion? || r.UnsupportedTransferEncoding?
  }

  /** An error is final: no further bytes and no close change it. */
  lemma ErrorsAreFinal(view: string, more: string, closed: bool, later: bool)
    requires IsError(Parse(view, closed))
    ensures Parse(view + more, later) == Parse(view, closed)
  {
    hide First, ParseStatusLine, ParseHeaders;
    FirstInLonger(view, more, CRLF);
    FirstInLonger(view, more, BLANK_LINE);
    var end, t := First(view, CRLF), First(view, BLANK_LINE);
    if end.Some? {
      CutBefore(view, more, end.value);
    }
    if t.Some? {
      CutBefore(view, more, t.value + 4);
    }
  }

  /** More text behind leaves a cut before it alone. */
  lemma CutBefore(view: string, more: string, n: nat)
    requires n <= |view|
    ensures (view + more)[..n] == view[..n] && (view + more)[n..] == view[n..] + more
  {
  }

  /**
   While the peer is open, every proper prefix of a complete response is incomplete, also of one
   that only the peer's close completes.
   */
  lemma PrefixesAreIncomplete(view: string, closed: bool, n: nat)
    requires Parse(view, closed).Complete? && n < |view|
    ensures Parse(view[..n], false) == Incomplete
  {
    hide First, ParseStatusLine, ParseHeaders;
    FirstInShorter(view, n, CRLF);
    FirstInShorter(view, n, BLANK_LINE);
    var end, t := First(view, CRLF).value, First(view, BLANK_LINE).value;
    if end + 2 <= n {
      assert view[..n][..end] == view[..end];
    }
    if t + 4 <= n {
      assert view[..n][..t + 4] == view[..t + 4];
      HttpServer.CrlfBeforeBlank(view);
    }
  }

  // ---------------------------------------------------------------- the session

  class HttpClientSession {
    var responseBuffer: string
    var responseOverflowed: bool

    constructor ()
      ensures responseBuffer == "" && !responseOverflowed && Bounded()
    {
      responseBuffer := "";
      responseOverflowed := false;
    }

    predicate Bounded()
      reads this
    {
      |responseBuffer| <= MAX_HEADER_BLOCK + MAX_BODY
    }

    /** `appendHttpClientBytes`: all of the bytes or, for good, none. */
    method AppendHttpClientBytes(bytes: string)
      requires Bounded()
      modifies this
      ensures Bounded() && (old(responseOverflowed) ==> responseOverflowed)
      ensures responseOverflowed ==> responseBuffer == old(responseBuffer)
      ensures !responseOverflowed ==> responseBuffer == old(responseBuffer) + bytes
      ensures responseOverflowed
              <==> old(responseOverflowed) || |old(responseBuffer)| + |bytes| > MAX_HEADER_BLOCK + MAX_BODY
    {
      if responseOverflowed {
        return;
      }
      var room := MAX_HEADER_BLOCK + MAX_BODY - |responseBuffer|;
      if |bytes| > room {
        responseOverflowed := true;
        return;
      }
      responseBuffer := responseBuffer + bytes;
    }
  }
}
