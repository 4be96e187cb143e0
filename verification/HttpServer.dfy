/** The server's HTTP/1.0 request parser: bounded, re-run on the whole buffer for every arrival. */
module HttpServer {
  import opened Primitives
  import opened HttpText

  const MAX_REQUEST_LINE: nat := 2048
  const MAX_HEADER_BLOCK: nat := 8192

  datatype Request = Request(method_: string, target: string, version: string)

  datatype Parsed = Incomplete | Complete(request: Request) | Malformed | TooLarge | UnsupportedMethod
    | UnsupportedVersion

  // ---------------------------------------------------------------- characters

  predicate IsTokenChar(c: char) {
    'A' <= c <= 'Z' || 'a' <= c <= 'z' || '0' <= c <= '9' || c in "!#$%&'*+-.^_`|~"
  }

  predicate IsControl(c: char) { c < ' ' || c == '\U{7f}' }

  predicate IsDigit(c: char) { '0' <= c <= '9' }

  predicate IsToken(s: string) { forall i | 0 <= i < |s| :: IsTokenChar(s[i]) }

  predicate ValidVersion(s: string) {
    |s| == 8 && s[..5] == "HTTP/" && IsDigit(s[5]) && s[6] == '.' && IsDigit(s[7])
  }

  predicate ValidTarget(s: string) {
    s != "" && s[0] == '/' && forall i | 0 <= i < |s| :: s[i] != ' ' && !IsControl(s[i])
  }

  function Lower(s: string): (r: string)
    ensures |r| == |s|
  {
    if s == "" then "" else [if 'A' <= s[0] <= 'Z' then s[0] + 32 as char else s[0]] + Lower(s[1..])
  }

  function SkipBlanks(s: string): string {
    if s != "" && (s[0] == ' ' || s[0] == '\t') then SkipBlanks(s[1..]) else s
  }

  predicate PrintableValue(s: string) { forall i | 0 <= i < |s| :: s[i] == '\t' || !IsControl(s[i]) }

  // ---------------------------------------------------------------- the head

  /** One header line: whether a Content-Length has been seen after it, or `None` when it is malformed. */
  function CheckHeader(line: string, seen: bool): Option<bool> {
    if line == "" || line[0] == ' ' || line[0] == '\t' then None
    else
      var colon := First(line, ":");
      if colon.None? || colon.value == 0 || !IsToken(line[..colon.value]) then None
      else
        var name, value := Lower(line[..colon.value]), SkipBlanks(line[colon.value + 1..]);
        if !PrintableValue(value) || name == "transfer-encoding" then None
        else if name == "content-length" then (if seen || value != "0" then None else Some(true))
        else Some(seen)
  }

  function CheckHeaders(lines: seq<string>, seen: bool): Option<bool> {
    if lines == [] then Some(seen)
    else
      var first := CheckHeader(lines[0], seen);
      if first.None? then None else CheckHeaders(lines[1..], first.value)
  }

  function ParseRequestLine(line: string): Parsed {
    var tokens := ExactFields(line, ' ', 3);
    if tokens == [] then Malformed
    else if |tokens| != 3 || !IsToken(tokens[0]) || !ValidVersion(tokens[2]) || !ValidTarget(tokens[1]) then Malformed
    else if tokens[0] != "GET" then UnsupportedMethod
    else if tokens[2] != "HTTP/1.0" then UnsupportedVersion
    else Complete(Request(tokens[0], tokens[1], tokens[2]))
  }

  function ParseHead(block: string): Parsed {
    var lines := Lines(block);
    if lines.None? || lines.value[0] == "" then Malformed
    else
      var r := ParseRequestLine(lines.value[0]);
      if !r.Complete? then r
      else if |lines.value| < 2 then Malformed
      else if CheckHeaders(lines.value[1..|lines.value| - 1], false).None? then Malformed
      else r
  }

  function Parse(view: string): Parsed {
    var terminator, crlf := First(view, BLANK_LINE), First(view, CRLF);
    if terminator.None? then
      if (crlf.Some? && crlf.value + 2 > MAX_REQUEST_LINE) || |view| >= MAX_HEADER_BLOCK then TooLarge else Incomplete
    else if crlf.Some? && crlf.value + 2 > MAX_REQUEST_LINE then TooLarge
    else if terminator.value + 4 > MAX_HEADER_BLOCK then TooLarge
    else
      var block := view[..terminator.value + 4];
      if '\0' in block then Malformed
      else
        var r := ParseHead(block);
        if r.Complete? && terminator.value + 4 < |view| then Malformed else r
  }

  // ---------------------------------------------------------------- the loops

  method AllTokenChars(s: string) returns (all: bool)
    ensures all == IsToken(s)
  {
    for i := 0 to |s|
      invariant forall j | 0 <= j < i :: IsTokenChar(s[j])
    {
      if !IsTokenChar(s[i]) {
        return false;
      }
    }
    all := true;
  }

  method FieldValue(rest: string) returns (value: string)
    ensures value == SkipBlanks(rest)
  {
    var start := 0;
    assert rest[0..] == rest;
    while start < |rest| && (rest[start] == ' ' || rest[start] == '\t')
      invariant start <= |rest|
      invariant SkipBlanks(rest[start..]) == SkipBlanks(rest)
    {
      assert rest[start..][1..] == rest[start + 1..];
      start := start + 1;
    }
    value := rest[start..];
  }

  method AllPrintable(value: string) returns (all: bool)
    ensures all == PrintableValue(value)
  {
    for i := 0 to |value|
      invariant forall j | 0 <= j < i :: value[j] == '\t' || !IsControl(value[j])
    {
      if value[i] != '\t' && IsControl(value[i]) {
        return false;
      }
    }
    all := true;
  }

  method ToLower(s: string) returns (out: string)
    ensures out == Lower(s)
  {
    out := "";
    assert s[0..] == s;
    for i := 0 to |s|
      invariant Lower(s) == out + Lower(s[i..])
    {
      assert s[i..][1..] == s[i + 1..];
      var c := if 'A' <= s[i] <= 'Z' then s[i] + 32 as char else s[i];
      assert Lower(s[i..]) == [c] + Lower(s[i + 1..]);
      assert out + ([c] + Lower(s[i + 1..])) == (out + [c]) + Lower(s[i + 1..]);
      out := out + [c];
    }
    assert s[|s|..] == "";
    assert out + "" == out;
  }

  method CheckHeaderLine(line: string, seen: bool) returns (r: Option<bool>)
    ensures r == CheckHeader(line, seen)
  {
    hide First, IsToken, SkipBlanks, PrintableValue, Lower;
    if line == "" || line[0] == ' ' || line[0] == '\t' {
      return None;
    }
    var colon := First(line, ":");
    if colon.None? || colon.value == 0 {
      return None;
    }
    var token := AllTokenChars(line[..colon.value]);
    if !token {
      return None;
    }
    var value := FieldValue(line[colon.value + 1..]);
    var printable := AllPrintable(value);
    if !printable {
      return None;
    }
    var name := ToLower(line[..colon.value]);
    if name == "transfer-encoding" {
      return None;
    }
    if name == "content-length" {
      if seen || value != "0" {
        return None;
      }
      return Some(true);
    }
    r := Some(seen);
  }

  method CheckHeaderLines(lines: seq<string>) returns (ok: bool)
    ensures ok == CheckHeaders(lines, false).Some?
  {
    hide CheckHeader;
    var seen := false;
    assert lines[0..] == lines;
    for i := 0 to |lines|
      invariant CheckHeaders(lines[i..], seen) == CheckHeaders(lines, false)
    {
      assert lines[i..][1..] == lines[i + 1..];
      var r := CheckHeaderLine(lines[i], seen);
      if r.None? {
        return false;
      }
      seen := r.value;
    }
    ok := true;
  }

  /** `parseHead`. */
  method ParseHeadLoops(block: string) returns (r: Parsed)
    ensures r == ParseHead(block)
  {
    hide Lines, ExactFields, CheckHeaders, IsToken, ValidTarget, ValidVersion;
    var lines := SplitLines(block);
    if lines.None? || lines.value[0] == "" {
      return Malformed;
    }
    var tokens := SplitExact(lines.value[0], ' ', 3);
    if tokens == [] || |tokens| != 3 || !IsToken(tokens[0]) || !ValidVersion(tokens[2]) || !ValidTarget(tokens[1]) {
      return Malformed;
    }
    if tokens[0] != "GET" {
      return UnsupportedMethod;
    }
    if tokens[2] != "HTTP/1.0" {
      return UnsupportedVersion;
    }
    if |lines.value| < 2 {
      return Malformed;
    }
    var ok := CheckHeaderLines(lines.value[1..|lines.value| - 1]);
    if !ok {
      return Malformed;
    }
    r := Complete(Request(tokens[0], tokens[1], tokens[2]));
  }

  // ---------------------------------------------------------------- verdicts over time

  predicate IsError(p: Parsed) { !p.Incomplete? && !p.Complete? }

  lemma CrlfBeforeBlank(view: string)
    requires First(view, BLANK_LINE).Some?
    ensures First(view, CRLF).Some? && First(view, CRLF).value <= First(view, BLANK_LINE).value
  {
    var t := First(view, BLANK_LINE).value;
    assert view[t..t + 2] == view[t..t + 4][..2] == CRLF;
    FirstIsFirst(view, CRLF, t);
  }

  /** An error verdict is final: no further bytes change it. */
  lemma ErrorsAreFinal(view: string, more: string)
    requires IsError(Parse(view))
    ensures Parse(view + more) == Parse(view)
  {
    hide First, ParseHead;
    FirstInLonger(view, more, BLANK_LINE);
    FirstInLonger(view, more, CRLF);
    var t := First(view, BLANK_LINE);
    if t.Some? {
      CrlfBeforeBlank(view);
      assert (view + more)[..t.value + 4] == view[..t.value + 4];
    } else if First(view + more, BLANK_LINE).Some? {
      CrlfBeforeBlank(view + more);
    }
  }

  /** Before a request is complete it is incomplete: every proper prefix asks for more bytes. */
  lemma PrefixesAreIncomplete(view: string, n: nat)
    requires Parse(view).Complete? && n < |view|
    ensures Parse(view[..n]) == Incomplete
  {
    hide First, ParseHead;
    CrlfBeforeBlank(view);
    FirstInShorter(view, n, BLANK_LINE);
    FirstInShorter(view, n, CRLF);
  }

  /** After a complete request any further byte is an error. */
  lemma NothingFollows(view: string, more: string)
    requires Parse(view).Complete? && more != ""
    ensures Parse(view + more) == Malformed
  {
    hide First, ParseHead;
    FirstInLonger(view, more, BLANK_LINE);
    FirstInLonger(view, more, CRLF);
    var t := First(view, BLANK_LINE).value;
    assert (view + more)[..t + 4] == view[..t + 4];
    CrlfBeforeBlank(view);
  }

  // ---------------------------------------------------------------- the session buffer

  class HttpConnectionState {
    var buffer: string

    constructor ()
      ensures buffer == ""
    {
      buffer := "";
    }

    /** `appendHttpBytes`. */
    method AppendHttpBytes(bytes: string)
      requires |buffer| <= MAX_HEADER_BLOCK
      modifies this
      ensures buffer == Append(old(buffer), bytes) && |buffer| <= MAX_HEADER_BLOCK
    {
      if |buffer| >= MAX_HEADER_BLOCK {
        assert Take(buffer + bytes, MAX_HEADER_BLOCK) == buffer;
        return;
      }
      var room := MAX_HEADER_BLOCK - |buffer|;
      var taken := Min(room, |bytes|);
      assert Take(buffer + bytes, MAX_HEADER_BLOCK) == buffer + bytes[..taken];
      buffer := buffer + bytes[..taken];
    }
  }

  function Append(buffer: string, bytes: string): string { Take(buffer + bytes, MAX_HEADER_BLOCK) }

  function AppendAll(buffer: string, chunks: seq<string>): string
    decreases |chunks|
  {
    if chunks == [] then buffer else AppendAll(Append(buffer, chunks[0]), chunks[1..])
  }

  function Concat(chunks: seq<string>): string { if chunks == [] then "" else chunks[0] + Concat(chunks[1..]) }

  /** However the bytes are cut into arrivals, the buffer holds the first 8192 of them. */
  lemma {:induction false} BufferIsPrefix(buffer: string, chunks: seq<string>)
    requires |buffer| <= MAX_HEADER_BLOCK
    ensures AppendAll(buffer, chunks) == Take(buffer + Concat(chunks), MAX_HEADER_BLOCK)
    decreases |chunks|
  {
    if chunks == [] {
      assert buffer + "" == buffer;
    } else {
      var next := Append(buffer, chunks[0]);
      var rest := Concat(chunks[1..]);
      BufferIsPrefix(next, chunks[1..]);
      assert buffer + (chunks[0] + rest) == buffer + chunks[0] + rest;
      assert Take(next + rest, MAX_HEADER_BLOCK) == Take(buffer + chunks[0] + rest, MAX_HEADER_BLOCK);
    }
  }

  /** The first blank line of the stream ends at the cap, a good head stands before it, and more bytes follow. */
  predicate EndsAtCap(stream: string) {
    && |stream| > MAX_HEADER_BLOCK && First(stream, BLANK_LINE) == Some(MAX_HEADER_BLOCK - 4)
    && First(stream, CRLF).Some? && First(stream, CRLF).value + 2 <= MAX_REQUEST_LINE
    && '\0' !in stream[..MAX_HEADER_BLOCK] && ParseHead(stream[..MAX_HEADER_BLOCK]).Complete?
  }

  /** A full buffer is a complete request exactly when the stream it was cut from ends there. */
  lemma CompleteAtCap(stream: string)
    requires |stream| > MAX_HEADER_BLOCK
    ensures Parse(stream[..MAX_HEADER_BLOCK]).Complete? <==> EndsAtCap(stream)
  {
    hide First, ParseHead;
    var head, more := stream[..MAX_HEADER_BLOCK], stream[MAX_HEADER_BLOCK..];
    assert stream == head + more;
    FirstInLonger(head, more, BLANK_LINE);
    FirstInLonger(head, more, CRLF);
    assert head[..MAX_HEADER_BLOCK] == head;
    if First(stream, BLANK_LINE).Some? {
      CrlfBeforeBlank(stream);
      FirstInShorter(stream, MAX_HEADER_BLOCK, BLANK_LINE);
      FirstInShorter(stream, MAX_HEADER_BLOCK, CRLF);
    }
  }

  /**
   The cap changes a verdict exactly when a good head ends at the cap and more bytes follow:
   those are dropped unseen, so the request is accepted.
   */
  lemma CapKeepsVerdict(stream: string)
    ensures Parse(Take(stream, MAX_HEADER_BLOCK)) == Parse(stream) <==> !EndsAtCap(stream)
  {
    hide Parse, First, ParseHead;
    if |stream| <= MAX_HEADER_BLOCK {
      assert Take(stream, MAX_HEADER_BLOCK) == stream;
    } else {
      var head, more := stream[..MAX_HEADER_BLOCK], stream[MAX_HEADER_BLOCK..];
      assert stream == head + more;
      CompleteAtCap(stream);
      if Parse(head).Complete? {
        NothingFollows(head, more);
      } else {
        assert !Parse(head).Incomplete? by { FullIsDecided(head); }
        ErrorsAreFinal(head, more);
      }
    }
  }

  lemma FullIsDecided(head: string)
    requires |head| == MAX_HEADER_BLOCK
    ensures !Parse(head).Incomplete?
  {
    hide First, Lines, ExactFields, CheckHeaders;
  }
}
