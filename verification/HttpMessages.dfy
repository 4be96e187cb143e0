/**
 Whole HTTP messages: the verdict on every request and every response that is written out from
 its parts.
 */
module HttpMessages {
  import opened Primitives
  import opened HttpText
  import HttpServer
  import HttpClient

  /** One header field. */
  datatype Field = Field(name: string, value: string)

  predicate Blank(c: char) { c == ' ' || c == '\t' }

  /** A token for a name, and a printable value without blanks around it. */
  predicate Writable(f: Field) {
    && f.name != "" && HttpServer.IsToken(f.name) && HttpServer.PrintableValue(f.value)
    && (f.value != "" ==> !Blank(f.value[0]) && !Blank(f.value[|f.value| - 1]))
  }

  function FieldLine(f: Field): string { f.name + ": " + f.value }

  function FieldLines(fs: seq<Field>): seq<string> { if fs == [] then [] else [FieldLine(fs[0])] + FieldLines(fs[1..]) }

  ghost predicate AllWritable(fs: seq<Field>) { forall f | f in fs :: Writable(f) }

  /** Header names are compared without regard to case. */
  predicate Named(f: Field, name: string) {
    |f.name| == |name| && forall i | 0 <= i < |name| :: SameLetter(f.name[i], name[i])
  }

  predicate SameLetter(a: char, b: char) { a == b || ('A' <= a <= 'Z' && a as int + 32 == b as int) }

  const LENGTH: string := "content-length"
  const TRANSFER: string := "transfer-encoding"

  // ---------------------------------------------------------------- one line

  predicate LowerCase(s: string) { forall i | 0 <= i < |s| :: !('A' <= s[i] <= 'Z') }

  lemma {:induction false} LoweredAt(s: string, i: nat)
    requires i < |s|
    ensures HttpServer.Lower(s)[i] == if 'A' <= s[i] <= 'Z' then s[i] + 32 as char else s[i]
    decreases |s|
  {
    if i > 0 {
      LoweredAt(s[1..], i - 1);
    }
  }

  lemma NamedIsLowered(f: Field, name: string)
    requires LowerCase(name)
    ensures Named(f, name) <==> HttpServer.Lower(f.name) == name
  {
    forall i | 0 <= i < |f.name|
      ensures HttpServer.Lower(f.name)[i] == if 'A' <= f.name[i] <= 'Z' then f.name[i] + 32 as char else f.name[i]
    {
      LoweredAt(f.name, i);
    }
    if Named(f, name) {
      assert forall i | 0 <= i < |name| :: HttpServer.Lower(f.name)[i] == name[i];
    }
  }

  lemma TokenHasNoColon(s: string)
    requires HttpServer.IsToken(s)
    ensures Without(s, ':') && CleanLine(s) && (s != "" ==> !Blank(s[0])) && '\0' !in s
  {
  }

  lemma PrintableIsClean(s: string)
    requires HttpServer.PrintableValue(s)
    ensures CleanLine(s) && '\0' !in s
  {
  }

  /** The parts that both parsers cut a header line into. */
  lemma LineParts(f: Field)
    requires Writable(f)
    ensures var line := FieldLine(f);
            && line != "" && !Blank(line[0]) && First(line, ":") == Some(|f.name|)
            && line[..|f.name|] == f.name && HttpServer.SkipBlanks(line[|f.name| + 1..]) == f.value
            && HttpClient.TrimBlanks(f.value) == f.value && CleanLine(line) && '\0' !in line
  {
    hide First;
    var line := FieldLine(f);
    TokenHasNoColon(f.name);
    PrintableIsClean(f.value);
    var rest := ":" + (" " + f.value);
    assert line == f.name + rest;
    FirstSkips(f.name, rest, ":");
    HttpClient.ColonFirst(" " + f.value);
    assert line[|f.name| + 1..] == " " + f.value;
    SkipOne(f.value);
  }

  lemma SkipOne(value: string)
    requires value != "" ==> !Blank(value[0])
    ensures HttpServer.SkipBlanks(" " + value) == value
  {
    assert (" " + value)[1..] == value;
  }

  /** The server's verdict on one line. */
  lemma ServerLine(f: Field, seen: bool)
    requires Writable(f)
    ensures HttpServer.CheckHeader(FieldLine(f), seen) ==
            if Named(f, TRANSFER) then None
            else if Named(f, LENGTH) then (if seen || f.value != "0" then None else Some(true))
            else Some(seen)
  {
    hide First, HttpServer.Lower, HttpServer.SkipBlanks, HttpServer.IsToken, HttpServer.PrintableValue, Named;
    LineParts(f);
    NamedIsLowered(f, TRANSFER);
    NamedIsLowered(f, LENGTH);
    WritableParts(f);
  }

  lemma WritableParts(f: Field)
    requires Writable(f)
    ensures f.name != "" && HttpServer.IsToken(f.name) && HttpServer.PrintableValue(f.value)
  {
  }

  /** The client's. */
  lemma ClientLine(f: Field, d: HttpClient.Declared)
    requires Writable(f)
    ensures HttpClient.CheckHeader(FieldLine(f), d) ==
            if Named(f, TRANSFER) then Some(d.(transferEncoding := true))
            else if !Named(f, LENGTH) then Some(d)
            else if d.length.Some? || !HttpClient.AllDigits(f.value) then None
            else Some(d.(length := Some(HttpClient.Decimal(f.value))))
  {
    hide First, HttpServer.Lower, HttpServer.SkipBlanks, HttpServer.IsToken, HttpServer.PrintableValue, Named,
         HttpClient.TrimBlanks, HttpClient.Decimal;
    LineParts(f);
    NamedIsLowered(f, TRANSFER);
    NamedIsLowered(f, LENGTH);
    WritableParts(f);
  }

  // ---------------------------------------------------------------- all lines

  lemma {:induction false} LinesAreWritable(fs: seq<Field>)
    requires AllWritable(fs)
    ensures Renderable(FieldLines(fs)) && (forall l | l in FieldLines(fs) :: '\0' !in l) && |FieldLines(fs)| == |fs|
    decreases |fs|
  {
    hide Writable;
    if fs != [] {
      LineParts(fs[0]);
      LinesAreWritable(fs[1..]);
    }
  }

  /** A body is announced: what the server cannot take. */
  ghost predicate Announces(fs: seq<Field>, seen: bool) {
    || (exists i: nat | i < |fs| :: Named(fs[i], TRANSFER))
    || (exists i: nat | i < |fs| :: Named(fs[i], LENGTH) && (seen || fs[i].value != "0"))
    || (exists i: nat, j: nat | i < j < |fs| :: Named(fs[i], LENGTH) && Named(fs[j], LENGTH))
  }

  lemma {:induction false} ServerLines(fs: seq<Field>, seen: bool)
    requires AllWritable(fs)
    ensures HttpServer.CheckHeaders(FieldLines(fs), seen).None? <==> Announces(fs, seen)
    decreases |fs|
  {
    hide Writable, HttpServer.CheckHeader, Named;
    if fs != [] {
      var f, rest := fs[0], fs[1..];
      ServerLine(f, seen);
      assert FieldLines(fs)[1..] == FieldLines(rest);
      var next := HttpServer.CheckHeader(FieldLine(f), seen);
      if next.Some? {
        ServerLines(rest, next.value);
        AnnouncesNext(fs, seen, next.value);
      } else {
        assert Named(fs[0], TRANSFER) || (Named(fs[0], LENGTH) && (seen || fs[0].value != "0"));
      }
    }
  }

  lemma AnnouncesNext(fs: seq<Field>, seen: bool, next: bool)
    requires fs != [] && !Named(fs[0], TRANSFER)
    requires if Named(fs[0], LENGTH) then !seen && fs[0].value == "0" && next else next == seen
    ensures Announces(fs, seen) <==> Announces(fs[1..], next)
  {
    hide Named;
    var rest := fs[1..];
    assert forall i: nat | i < |rest| :: rest[i] == fs[i + 1];
    assert forall i: nat | 0 < i < |fs| :: fs[i] == rest[i - 1];
  }

  // ---------------------------------------------------------------- requests

  function RequestText(method_: string, target: string, version: string, fs: seq<Field>): string {
    Render([method_ + " " + target + " " + version] + FieldLines(fs))
  }

  lemma RequestFields(method_: string, target: string, version: string)
    requires method_ != "" && HttpServer.IsToken(method_) && HttpServer.ValidTarget(target)
    requires HttpServer.ValidVersion(version)
    ensures ExactFields(method_ + " " + target + " " + version, ' ', 3) == [method_, target, version]
    ensures CleanLine(method_ + " " + target + " " + version) && '\0' !in method_ + " " + target + " " + version
  {
    hide Fields;
    var rest := target + [' '] + version;
    var line := method_ + " " + target + " " + version;
    assert line == method_ + [' '] + rest;
    assert Without(method_, ' ') && Without(target, ' ');
    VersionIsPlain(version);
    FieldThen(method_, ' ', rest);
    FieldThen(target, ' ', version);
    OneField(version, ' ');
    assert Fields(line, ' ') == [method_, target, version];
    TokenHasNoColon(method_);
    assert CleanLine(target) && '\0' !in target;
  }

  lemma VersionIsPlain(version: string)
    requires HttpServer.ValidVersion(version)
    ensures Without(version, ' ') && CleanLine(version) && '\0' !in version && version != ""
  {
    assert forall i | 0 <= i < 5 :: version[i] == version[..5][i] == "HTTP/"[i];
  }

  lemma {:induction false} NoNulInRender(lines: seq<string>)
    requires forall l | l in lines :: '\0' !in l
    ensures '\0' !in Render(lines)
    decreases |lines|
  {
    if lines != [] {
      NoNulInRender(lines[1..]);
    }
  }

  /** The text of a head: where its first line and its blank line end, also with a body behind it. */
  lemma HeadShape(line: string, fs: seq<Field>, body: string)
    requires line != "" && CleanLine(line) && '\0' !in line && AllWritable(fs)
    ensures var lines := [line] + FieldLines(fs);
            var head := Render(lines);
            && First(head + body, CRLF) == Some(|line|) && First(head + body, BLANK_LINE) == Some(|head| - 4)
            && Lines(head) == Some(lines + [""]) && '\0' !in head && (head + body)[..|line|] == line
            && |head| >= |line| + 4
  {
    hide First, Render, Lines, Writable;
    var lines := [line] + FieldLines(fs);
    LinesAreWritable(fs);
    assert Renderable(lines);
    assert lines[1..] == FieldLines(fs);
    RenderLength(lines);
    LinesOfRender(lines);
    BlankLineOfRender(lines);
    NoNulInRender(lines);
    RenderHead(lines);
    FirstInLonger(Render(lines), body, BLANK_LINE);
    assert Render(lines) + body == line + CRLF + (Render(FieldLines(fs)) + body);
    FirstCrlf(line, Render(FieldLines(fs)) + body);
  }

  /**
   The verdict on every request with a well-formed line and well-formed fields: too large beyond the
   limits, then the method, the version, an announced body, and otherwise the request itself.
   */
  lemma RequestVerdict(method_: string, target: string, version: string, fs: seq<Field>)
    requires method_ != "" && HttpServer.IsToken(method_) && HttpServer.ValidTarget(target)
    requires HttpServer.ValidVersion(version) && AllWritable(fs)
    ensures var text := RequestText(method_, target, version, fs);
            HttpServer.Parse(text) ==
            if |method_| + |target| + |version| + 4 > 2048 || |text| > 8192 then HttpServer.TooLarge
            else if method_ != "GET" then HttpServer.UnsupportedMethod
            else if version != "HTTP/1.0" then HttpServer.UnsupportedVersion
            else if Announces(fs, false) then HttpServer.Malformed
            else HttpServer.Complete(HttpServer.Request("GET", target, "HTTP/1.0"))
  {
    hide First, Render, Lines, Writable, ExactFields, HttpServer.CheckHeaders, Announces, HttpServer.IsToken,
         HttpServer.ValidTarget, HttpServer.ValidVersion;
    var line := method_ + " " + target + " " + version;
    var text := RequestText(method_, target, version, fs);
    RequestFields(method_, target, version);
    HeadShape(line, fs, "");
    assert text + "" == text && text[..|text|] == text;
    ServerLines(fs, false);
    var lines := [line] + FieldLines(fs) + [""];
    assert lines[1..|lines| - 1] == FieldLines(fs);
  }

  /** The request that the client builds, from its parts. */
  lemma BuiltFromParts(host: string, target: string)
    ensures HttpClient.RequestText(host, target)
            == RequestText("GET", target, "HTTP/1.0", [Field("Host", host), Field("Connection", "close")])
  {
    hide Render;
    HttpClient.TextIsRendered(host, target);
    var h, c := Field("Host", host), Field("Connection", "close");
    assert [h, c][1..] == [c] && [c][1..] == [];
    assert FieldLines([c]) == [FieldLine(c)] && FieldLines([h, c]) == [FieldLine(h), FieldLine(c)];
    assert FieldLine(c) == "Connection: close" && FieldLine(h) == "Host: " + host;
    var line := "GET" + " " + target + " " + "HTTP/1.0";
    assert line == HttpClient.RequestLine(target);
    assert [line] + FieldLines([h, c]) == HttpClient.HeadLines(host, target);
  }

  // ---------------------------------------------------------------- numbers

  /** The decimal digits of a number, without leading zeros. */
  function Digits(n: nat): (s: string)
    ensures HttpClient.AllDigits(s)
  {
    var last := '0' + (n % 10) as char;
    if n < 10 then [last] else Digits(n / 10) + [last]
  }

  lemma {:induction false} DigitsRoundTrip(n: nat)
    ensures HttpClient.Decimal(Digits(n)) == n
  {
    var s := Digits(n);
    if n >= 10 {
      DigitsRoundTrip(n / 10);
      assert s[..|s| - 1] == Digits(n / 10);
    } else {
      assert s[..|s| - 1] == "";
    }
  }

  // ---------------------------------------------------------------- responses

  function CodeText(code: nat): string
    requires code <= 999
  {
    ['0' + (code / 100) as char, '0' + (code / 10 % 10) as char, '0' + (code % 10) as char]
  }

  function StatusText(code: nat, reason: string): string
    requires code <= 999
  {
    "HTTP/1.0 " + CodeText(code) + " " + reason
  }

  /** The head of a response; the body follows it. */
  function ResponseHead(code: nat, reason: string, fs: seq<Field>): string
    requires code <= 999
  {
    Render([StatusText(code, reason)] + FieldLines(fs))
  }

  lemma CodeTextMeans(code: nat)
    requires code <= 999
    ensures var s := CodeText(code);
            && HttpClient.AllDigits(s) && Without(s, ' ') && CleanLine(s) && '\0' !in s
            && 100 * HttpClient.Digit(s[0]) + 10 * HttpClient.Digit(s[1]) + HttpClient.Digit(s[2]) == code
  {
  }

  /** How the status line falls apart. */
  lemma StatusParts(code: nat, reason: string)
    requires code <= 999
    ensures var line, rest := StatusText(code, reason), CodeText(code) + " " + reason;
            && First(line, " ") == Some(8) && line[..8] == "HTTP/1.0" && line[9..] == rest
            && First(rest, " ") == Some(3) && rest[..3] == CodeText(code) && rest[4..] == reason
  {
    hide First, Without;
    var line, rest := StatusText(code, reason), CodeText(code) + " " + reason;
    assert line == "HTTP/1.0" + (" " + rest);
    assert Without("HTTP/1.0", ' ') by { VersionHasNoBlank(); }
    FirstSkips("HTTP/1.0", " " + rest, " ");
    SpaceFirst(rest);
    CodeTextMeans(code);
    assert rest == CodeText(code) + (" " + reason);
    FirstSkips(CodeText(code), " " + reason, " ");
    SpaceFirst(reason);
  }

  lemma VersionHasNoBlank()
    ensures Without("HTTP/1.0", ' ') && HttpServer.ValidVersion("HTTP/1.0")
  {
    assert "HTTP/1.0"[..5] == "HTTP/";
  }

  lemma StatusParses(code: nat, reason: string)
    requires 200 <= code <= 599 && HttpServer.PrintableValue(reason)
    ensures HttpClient.ParseStatusLine(StatusText(code, reason)) == HttpClient.Code(code)
    ensures var line := StatusText(code, reason); line != "" && CleanLine(line) && '\0' !in line
  {
    hide First, HttpClient.AllDigits, HttpServer.PrintableValue, CodeText, HttpServer.ValidVersion;
    StatusParts(code, reason);
    CodeTextMeans(code);
    CodeIsThree(code);
    VersionHasNoBlank();
    PrintableIsClean(reason);
  }

  lemma CodeIsThree(code: nat)
    requires code <= 999
    ensures |CodeText(code)| == 3 && CodeText(code)[0] != ' '
  {
  }

  lemma SpaceFirst(rest: string)
    ensures First(" " + rest, " ") == Some(0)
  {
    assert (" " + rest)[..1] == " ";
  }

  /** The values of the Content-Length fields. */
  function Lengths(fs: seq<Field>): seq<string> {
    if fs == [] then [] else (if Named(fs[0], LENGTH) then [fs[0].value] else []) + Lengths(fs[1..])
  }

  ghost predicate Encoded(fs: seq<Field>) { exists i: nat | i < |fs| :: Named(fs[i], TRANSFER) }

  /** What the fields declare: nothing readable, or the one length and whether a transfer encoding was named. */
  lemma {:induction false} ClientLines(fs: seq<Field>, d: HttpClient.Declared)
    requires AllWritable(fs)
    ensures var r, ls := HttpClient.CheckHeaders(FieldLines(fs), d), Lengths(fs);
            && (r.None? <==> |ls| >= 2 || (|ls| == 1 && (d.length.Some? || !HttpClient.AllDigits(ls[0]))))
            && (r.Some? ==>
                  && r.value.transferEncoding == (d.transferEncoding || Encoded(fs))
                  && r.value.length == (if |ls| == 1 then Some(HttpClient.Decimal(ls[0])) else d.length))
    decreases |fs|
  {
    hide Writable, HttpClient.CheckHeader, HttpClient.AllDigits, HttpClient.Decimal, Named;
    if fs != [] {
      var f, rest := fs[0], fs[1..];
      ClientLine(f, d);
      NotBoth(f);
      assert FieldLines(fs)[1..] == FieldLines(rest);
      var next := HttpClient.CheckHeader(FieldLine(f), d);
      assert Encoded(fs) <==> Named(f, TRANSFER) || Encoded(rest) by {
        assert forall i: nat | i < |rest| :: rest[i] == fs[i + 1];
        assert forall i: nat | 0 < i < |fs| :: fs[i] == rest[i - 1];
      }
      if next.Some? {
        ClientLines(rest, next.value);
      }
    }
  }

  lemma NotBoth(f: Field)
    ensures !(Named(f, LENGTH) && Named(f, TRANSFER))
  {
  }

  /** The verdict that the fields and the body call for. */
  function BodyVerdict(code: nat, fs: seq<Field>, encoded: bool, body: string, closed: bool): HttpClient.Response {
    var ls := Lengths(fs);
    if |ls| >= 2 || (|ls| == 1 && !HttpClient.AllDigits(ls[0])) then HttpClient.Malformed
    else if encoded then HttpClient.UnsupportedTransferEncoding
    else if |ls| == 1 then
      var n := HttpClient.Decimal(ls[0]);
      if n > 262144 then HttpClient.TooLarge
      else if |body| > n then HttpClient.Malformed
      else if |body| == n then HttpClient.Complete(code, body, true)
      else if closed then HttpClient.Truncated
      else HttpClient.Incomplete
    else if |body| > 262144 then HttpClient.TooLarge
    else if closed then HttpClient.Complete(code, body, false)
    else HttpClient.Incomplete
  }

  /** The verdict on every response with a well-formed status line and well-formed fields. */
  lemma ResponseVerdict(code: nat, reason: string, fs: seq<Field>, body: string, closed: bool)
    requires 200 <= code <= 599 && HttpServer.PrintableValue(reason) && AllWritable(fs)
    ensures var head := ResponseHead(code, reason, fs);
            HttpClient.Parse(head + body, closed) ==
            if |reason| + 15 > 2048 || |head| > 8192 then HttpClient.TooLarge
            else BodyVerdict(code, fs, Encoded(fs), body, closed)
  {
    hide First, Render, Lines, Writable, HttpClient.ParseStatusLine, HttpClient.CheckHeaders, Encoded, Lengths,
         HttpServer.PrintableValue, HttpClient.AllDigits, HttpClient.Decimal, CodeText;
    var line := StatusText(code, reason);
    var head := ResponseHead(code, reason, fs);
    StatusParses(code, reason);
    CodeIsThree(code);
    HeadShape(line, fs, body);
    var lines := [line] + FieldLines(fs) + [""];
    assert lines[1..|lines| - 1] == FieldLines(fs);
    assert (head + body)[..|head|] == head && (head + body)[|head|..] == body;
    ClientLines(fs, HttpClient.Declared(false, None));
  }

  /** Whatever view is complete, its body is what follows the first blank line, and its code is that of the line. */
  lemma CompleteMeans(view: string, closed: bool)
    requires HttpClient.Parse(view, closed).Complete?
    ensures First(view, BLANK_LINE).Some? && First(view, CRLF).Some?
    ensures var r := HttpClient.Parse(view, closed);
            && r.body == view[First(view, BLANK_LINE).value + 4..] && |r.body| <= 262144
            && HttpClient.ParseStatusLine(view[..First(view, CRLF).value]) == HttpClient.Code(r.code)
            && (!r.lengthPresent ==> closed)
  {
    hide First, HttpClient.ParseStatusLine, HttpClient.ParseHeaders;
  }

  /** The field a sender announces its body with. */
  function LengthField(body: string): Field { Field("Content-Length", Digits(|body|)) }

  /**
   Round trip: a response written with its code and its body is read back, at once when the length
   is announced, and with the close of the peer when it is not.
   */
  lemma ResponseRoundTrip(code: nat, reason: string, body: string, closed: bool)
    requires 200 <= code <= 599 && HttpServer.PrintableValue(reason) && |reason| + 15 <= 2048 && |body| <= 262144
    ensures HttpClient.Parse(ResponseHead(code, reason, [LengthField(body)]) + body, closed)
            == HttpClient.Complete(code, body, true)
    ensures HttpClient.Parse(ResponseHead(code, reason, []) + body, true) == HttpClient.Complete(code, body, false)
    ensures HttpClient.Parse(ResponseHead(code, reason, []) + body, false) == HttpClient.Incomplete
  {
    hide HttpClient.Parse, Render, Digits, HttpServer.PrintableValue, HttpClient.AllDigits, HttpClient.Decimal, Named,
         StatusText;
    var f := LengthField(body);
    DigitsRoundTrip(|body|);
    LengthIsWritable(body);
    OneLength(f);
    assert Lengths([]) == [] && !Encoded([]);
    DigitsAreShort(|body|, 6) by { SixDigits(); }
    HeadLength(code, reason, f);
    ResponseVerdict(code, reason, [f], body, closed);
    ResponseVerdict(code, reason, [], body, true);
    ResponseVerdict(code, reason, [], body, false);
  }

  lemma {:induction false} DigitsAreShort(n: nat, k: nat)
    requires n < Power(k) && k > 0
    ensures |Digits(n)| <= k
    decreases k
  {
    if n >= 10 {
      assert k > 1 by { assert Power(1) == 10 * Power(0); }
      assert Power(k) == 10 * Power(k - 1);
      DigitsAreShort(n / 10, k - 1);
    }
  }

  function Power(k: nat): nat { if k == 0 then 1 else 10 * Power(k - 1) }

  lemma {:induction false} DigitsArePrintable(n: nat)
    ensures HttpServer.PrintableValue(Digits(n)) && !Blank(Digits(n)[0]) && !Blank(Digits(n)[|Digits(n)| - 1])
  {
    assert forall i | 0 <= i < |Digits(n)| :: HttpServer.IsDigit(Digits(n)[i]);
  }

  lemma LengthIsWritable(body: string)
    ensures Writable(LengthField(body)) && Named(LengthField(body), LENGTH)
  {
    hide Digits, HttpServer.IsToken, HttpServer.PrintableValue, Named;
    DigitsArePrintable(|body|);
    LengthIsToken();
    LengthIsNamed(Digits(|body|));
  }

  lemma LengthIsToken()
    ensures HttpServer.IsToken("Content-Length")
  {
  }

  lemma LengthIsNamed(value: string)
    ensures Named(Field("Content-Length", value), LENGTH)
  {
  }

  lemma OneLength(f: Field)
    requires Named(f, LENGTH)
    ensures Lengths([f]) == [f.value] && !Encoded([f]) && (Writable(f) ==> AllWritable([f])) && AllWritable([])
  {
    hide Named, Writable;
    NotBoth(f);
    assert [f][1..] == [];
    assert Lengths([]) == [];
  }

  lemma SixDigits()
    ensures Power(6) == 1_000_000
  {
    assert Power(3) == 1000;
  }

  /** The heads of the round trip fit the limit. */
  lemma HeadLength(code: nat, reason: string, f: Field)
    requires code <= 999 && |reason| + 15 <= 2048 && f.name == "Content-Length" && |f.value| <= 6
    ensures |ResponseHead(code, reason, [f])| <= 8192 && |ResponseHead(code, reason, [])| <= 8192
  {
    hide CodeText;
    CodeIsThree(code);
    var line := StatusText(code, reason);
    assert [f][1..] == [];
    assert FieldLines([f]) == [FieldLine(f)] && FieldLines([]) == [];
    RenderTwo(line, FieldLine(f));
  }

  lemma RenderTwo(a: string, b: string)
    ensures |Render([a] + [b])| == |a| + |b| + 6 && |Render([a] + [])| == |a| + 4
  {
    assert ([a] + [b])[1..] == [b] && [b][1..] == [] && ([a] + [])[1..] == [];
    assert |Render([])| == 2;
    assert |Render([b])| == |b| + 4;
  }

  // ---------------------------------------------------------------- what the server sends

  datatype Status = Ok200 | BadRequest400 | NotFound404 | MethodNotAllowed405 | VersionNotSupported505

  function CodeOf(s: Status): nat {
    match s
    case Ok200 => 200
    case BadRequest400 => 400
    case NotFound404 => 404
    case MethodNotAllowed405 => 405
    case VersionNotSupported505 => 505
  }

  function Reason(s: Status): string {
    match s
    case Ok200 => "OK"
    case BadRequest400 => "Bad Request"
    case NotFound404 => "Not Found"
    case MethodNotAllowed405 => "Method Not Allowed"
    case VersionNotSupported505 => "HTTP Version Not Supported"
  }

  function StatusLine(s: Status): string {
    (match s
     case Ok200 => "200 "
     case BadRequest400 => "400 "
     case NotFound404 => "404 "
     case MethodNotAllowed405 => "405 "
     case VersionNotSupported505 => "505 ") + Reason(s)
  }

  datatype Reply = Reply(status: Status, contentType: string, body: string, allowGet: bool)

  function ReplyLines(r: Reply): seq<string> {
    ["HTTP/1.0 " + StatusLine(r.status), "Content-Type: " + r.contentType, "Content-Length: " + Digits(|r.body|)]
    + (if r.allowGet then ["Allow: GET"] else []) + ["Connection: close"]
  }

  /** `serializeHttpResponse`. */
  method SerializeHttpResponse(r: Reply) returns (out: string)
    ensures out == Render(ReplyLines(r)) + r.body
  {
    hide Digits, StatusLine, Render;
    var head := "HTTP/1.0 ";
    head := head + StatusLine(r.status);
    head := head + CRLF;
    head := head + ("Content-Type: " + r.contentType);
    head := head + CRLF;
    head := head + ("Content-Length: " + Digits(|r.body|));
    head := head + CRLF;
    JoinThree("HTTP/1.0 " + StatusLine(r.status), "Content-Type: " + r.contentType,
              "Content-Length: " + Digits(|r.body|));
    ghost var lines := ["HTTP/1.0 " + StatusLine(r.status), "Content-Type: " + r.contentType,
                        "Content-Length: " + Digits(|r.body|)];
    assert head == Joined(lines);
    if r.allowGet {
      head := head + "Allow: GET";
      head := head + CRLF;
      JoinLast(lines, "Allow: GET");
      lines := lines + ["Allow: GET"];
    }
    assert head == Joined(lines) && ReplyLines(r) == lines + ["Connection: close"];
    RenderJoins(lines, ["Connection: close"]);
    LastRendered("Connection: close");
    head := head + ("Connection: close" + CRLF + CRLF);
    out := head + r.body;
  }

  function ReplyFields(r: Reply): seq<Field> {
    [Field("Content-Type", r.contentType), LengthField(r.body)]
    + (if r.allowGet then [Field("Allow", "GET")] else []) + [Field("Connection", "close")]
  }

  lemma ReasonIsPrintable(s: Status)
    ensures HttpServer.PrintableValue(Reason(s)) && |Reason(s)| <= 26
  {
  }

  lemma CodesAreSpelled()
    ensures CodeText(200) == "200" && CodeText(400) == "400" && CodeText(404) == "404" && CodeText(405) == "405"
            && CodeText(505) == "505"
  {
  }

  lemma StatusIsSpelled(s: Status)
    ensures CodeOf(s) <= 999 && StatusLine(s) == CodeText(CodeOf(s)) + " " + Reason(s)
  {
    hide CodeText, Reason;
    CodesAreSpelled();
  }

  lemma FieldIsWritable(name: string, value: string)
    requires name in {"Content-Type", "Allow", "Connection"}
    requires HttpServer.PrintableValue(value) && (value != "" ==> !Blank(value[0]) && !Blank(value[|value| - 1]))
    ensures Writable(Field(name, value)) && !Named(Field(name, value), LENGTH) && !Named(Field(name, value), TRANSFER)
  {
    if name == "Content-Type" {
      assert HttpServer.IsToken("Content-Type");
    } else if name == "Allow" {
      assert HttpServer.IsToken("Allow");
    } else {
      assert HttpServer.IsToken("Connection");
    }
  }

  lemma {:induction false} RenderJoins(lines: seq<string>, more: seq<string>)
    ensures Render(lines + more) == Joined(lines) + Render(more)
    decreases |lines|
  {
    if lines == [] {
      assert lines + more == more;
      assert Joined(lines) + Render(more) == Render(more);
    } else {
      assert (lines + more)[1..] == lines[1..] + more;
      RenderJoins(lines[1..], more);
      assert lines[0] + CRLF + (Joined(lines[1..]) + Render(more))
             == (lines[0] + CRLF + Joined(lines[1..])) + Render(more);
    }
  }

  /** Lines with their ends. */
  function Joined(lines: seq<string>): string { if lines == [] then "" else lines[0] + CRLF + Joined(lines[1..]) }

  lemma {:induction false} JoinLast(lines: seq<string>, last: string)
    ensures Joined(lines + [last]) == Joined(lines) + last + CRLF
    decreases |lines|
  {
    if lines == [] {
      assert lines + [last] == [last];
      JoinOne(last);
    } else {
      assert (lines + [last])[1..] == lines[1..] + [last];
      JoinLast(lines[1..], last);
      assert lines[0] + CRLF + (Joined(lines[1..]) + last + CRLF) == lines[0] + CRLF + Joined(lines[1..]) + last + CRLF;
    }
  }

  lemma {:induction false} FieldLinesConcat(fs: seq<Field>, gs: seq<Field>)
    ensures FieldLines(fs + gs) == FieldLines(fs) + FieldLines(gs)
    decreases |fs|
  {
    if fs == [] {
      assert fs + gs == gs;
    } else {
      assert (fs + gs)[1..] == fs[1..] + gs;
      FieldLinesConcat(fs[1..], gs);
    }
  }

  lemma OneFieldLine(f: Field)
    ensures FieldLines([f]) == [FieldLine(f)]
  {
    assert [f][1..] == [];
  }

  /** What the server writes is a head of that status and those fields. */
  lemma ReplyIsHead(r: Reply)
    ensures CodeOf(r.status) <= 999
    ensures Render(ReplyLines(r)) == ResponseHead(CodeOf(r.status), Reason(r.status), ReplyFields(r))
  {
    hide CodeText, Digits, Render, StatusLine, FieldLines, Reason, CodeOf;
    StatusIsSpelled(r.status);
    var line := StatusText(CodeOf(r.status), Reason(r.status));
    assert line == "HTTP/1.0 " + StatusLine(r.status);
    var t, l := Field("Content-Type", r.contentType), LengthField(r.body);
    var a, c := Field("Allow", "GET"), Field("Connection", "close");
    OneFieldLine(t);
    OneFieldLine(l);
    OneFieldLine(a);
    OneFieldLine(c);
    FieldLinesConcat([t], [l]);
    assert [t] + [l] == [t, l];
    var allow := if r.allowGet then [a] else [];
    FieldLinesConcat([t, l], allow);
    FieldLinesConcat([t, l] + allow, [c]);
    assert FieldLine(t) == "Content-Type: " + r.contentType && FieldLine(l) == "Content-Length: " + Digits(|r.body|);
    assert FieldLine(a) == "Allow: GET" && FieldLine(c) == "Connection: close";
    assert FieldLines([]) == [] by { NoFieldLines(); }
    assert [line] + FieldLines(ReplyFields(r)) == ReplyLines(r);
  }

  lemma NoFieldLines()
    ensures FieldLines([]) == []
  {
  }

  lemma JoinThree(a: string, b: string, c: string)
    ensures Joined([a, b, c]) == a + CRLF + b + CRLF + c + CRLF
  {
    assert [a, b, c][1..] == [b, c] && [b, c][1..] == [c] && [c][1..] == [];
    assert Joined([c]) == c + CRLF + "";
    assert Joined([b, c]) == b + CRLF + (c + CRLF + "");
  }

  lemma JoinOne(a: string)
    ensures Joined([a]) == a + CRLF && Joined([]) == ""
  {
    assert [a][1..] == [];
    assert Joined([a]) == a + CRLF + "";
  }

  lemma LastRendered(c: string)
    ensures Render([c]) == c + CRLF + CRLF
  {
    assert [c][1..] == [];
  }

  /** What the server sends the client reads: the status and the body, at once. */
  lemma ReplyIsRead(r: Reply, closed: bool)
    requires HttpServer.PrintableValue(r.contentType) && |r.contentType| <= 4096 && |r.body| <= 262144
    requires r.contentType != "" ==> !Blank(r.contentType[0]) && !Blank(r.contentType[|r.contentType| - 1])
    ensures HttpClient.Parse(Render(ReplyLines(r)) + r.body, closed)
            == HttpClient.Complete(CodeOf(r.status), r.body, true)
  {
    hide HttpClient.Parse, Render, Digits, HttpServer.PrintableValue, HttpClient.AllDigits, HttpClient.Decimal, Named,
         StatusText, Writable, CodeText, FieldLines, FieldLine, ReplyLines, ReplyFields, ResponseHead;
    ReplyIsHead(r);
    ReasonIsPrintable(r.status);
    DigitsRoundTrip(|r.body|);
    ReplyLengths(r);
    ReplyHeadFits(r);
    ResponseVerdict(CodeOf(r.status), Reason(r.status), ReplyFields(r), r.body, closed);
  }

  lemma GoodValues()
    ensures HttpServer.PrintableValue("GET") && HttpServer.PrintableValue("close")
  {
  }

  lemma ReplyLengths(r: Reply)
    requires HttpServer.PrintableValue(r.contentType)
    requires r.contentType != "" ==> !Blank(r.contentType[0]) && !Blank(r.contentType[|r.contentType| - 1])
    ensures AllWritable(ReplyFields(r)) && Lengths(ReplyFields(r)) == [Digits(|r.body|)] && !Encoded(ReplyFields(r))
  {
    hide Digits, Named, HttpServer.PrintableValue, Writable;
    GoodValues();
    FieldIsWritable("Content-Type", r.contentType);
    FieldIsWritable("Allow", "GET");
    FieldIsWritable("Connection", "close");
    LengthIsWritable(r.body);
    NotBoth(LengthField(r.body));
    var fs := ReplyFields(r);
    var length, last := LengthField(r.body), Field("Connection", "close");
    assert Lengths([]) == [];
    assert Lengths([last]) == [] by { assert [last][1..] == []; }
    if r.allowGet {
      var allow := Field("Allow", "GET");
      assert fs[1..] == [length, allow, last] && [length, allow, last][1..] == [allow, last]
             && [allow, last][1..] == [last];
      assert Lengths([allow, last]) == [];
      assert Lengths([length, allow, last]) == [length.value];
    } else {
      assert fs[1..] == [length, last] && [length, last][1..] == [last];
      assert Lengths([length, last]) == [length.value];
    }
  }

  lemma ReplyHeadFits(r: Reply)
    requires |r.contentType| <= 4096 && |r.body| <= 262144
    ensures |Render(ReplyLines(r))| <= 8192
  {
    hide Digits, Power, StatusLine, Render;
    DigitsAreShort(|r.body|, 6) by { SixDigits(); }
    StatusIsShort(r.status);
    var a, b, c := "HTTP/1.0 " + StatusLine(r.status), "Content-Type: " + r.contentType,
      "Content-Length: " + Digits(|r.body|);
    var allow := if r.allowGet then ["Allow: GET"] else [];
    assert ReplyLines(r) == [a, b, c] + (allow + ["Connection: close"]);
    RenderJoins([a, b, c], allow + ["Connection: close"]);
    RenderJoins(allow, ["Connection: close"]);
    JoinThree(a, b, c);
    JoinOne("Allow: GET");
    LastRendered("Connection: close");
  }

  lemma StatusIsShort(s: Status)
    ensures |StatusLine(s)| <= 30
  {
  }
}
