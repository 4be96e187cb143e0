/** Text of HTTP heads: searching, lines and fields.  A character stands for one byte. */
module HttpText {
  import opened Primitives

  const CRLF: string := "\r\n"
  const BLANK_LINE: string := "\r\n\r\n"

  // ---------------------------------------------------------------- searching

  function Later(i: Option<nat>, n: nat): Option<nat> { if i.Some? then Some(i.value + n) else None }

  /** The first place where `pattern` occurs. */
  function First(s: string, pattern: string): (i: Option<nat>)
    requires pattern != ""
    ensures i.Some? ==> i.value + |pattern| <= |s| && s[i.value..i.value + |pattern|] == pattern
  {
    if |s| < |pattern| then None
    else if s[..|pattern|] == pattern then Some(0)
    else Later(First(s[1..], pattern), 1)
  }

  /** There is no occurrence before the first one. */
  lemma {:induction false} FirstIsFirst(s: string, pattern: string, j: nat)
    requires pattern != "" && j + |pattern| <= |s| && s[j..j + |pattern|] == pattern
    ensures First(s, pattern).Some? && First(s, pattern).value <= j
    decreases |s|
  {
    if s[..|pattern|] != pattern {
      assert j > 0;
      assert s[1..][j - 1..j - 1 + |pattern|] == s[j..j + |pattern|];
      FirstIsFirst(s[1..], pattern, j - 1);
    }
  }

  /** More text behind does not move an occurrence, and a new one reaches into it. */
  lemma {:induction false} FirstInLonger(s: string, more: string, pattern: string)
    requires pattern != ""
    ensures First(s, pattern).Some? ==> First(s + more, pattern) == First(s, pattern)
    ensures First(s, pattern).None? && First(s + more, pattern).Some? ==>
              First(s + more, pattern).value + |pattern| > |s|
    decreases |s|
  {
    if |s| >= |pattern| {
      assert (s + more)[..|pattern|] == s[..|pattern|];
      if s[..|pattern|] != pattern {
        assert (s + more)[1..] == s[1..] + more;
        FirstInLonger(s[1..], more, pattern);
      }
    }
  }

  lemma FirstInShorter(s: string, n: nat, pattern: string)
    requires pattern != "" && n <= |s| && First(s, pattern).Some?
    ensures First(s[..n], pattern) == if First(s, pattern).value + |pattern| <= n then First(s, pattern) else None
  {
    hide First;
    FirstInLonger(s[..n], s[n..], pattern);
    assert s[..n] + s[n..] == s;
  }

  predicate Without(s: string, c: char) { forall i | 0 <= i < |s| :: s[i] != c }

  lemma FirstStep(s: string, pattern: string)
    requires pattern != "" && s != "" && s[0] != pattern[0]
    ensures First(s, pattern) == Later(First(s[1..], pattern), 1)
  {
    if |s| >= |pattern| {
      assert s[..|pattern|][0] == s[0];
    } else {
      NothingFits(s[1..], pattern);
    }
  }

  /** An occurrence cannot start in text without its first character. */
  lemma {:induction false} FirstSkips(head: string, rest: string, pattern: string)
    requires pattern != "" && Without(head, pattern[0])
    ensures First(head + rest, pattern) == Later(First(rest, pattern), |head|)
    decreases |head|
  {
    hide First;
    if head == "" {
      assert head + rest == rest;
    } else {
      assert (head + rest)[1..] == head[1..] + rest;
      FirstStep(head + rest, pattern);
      FirstSkips(head[1..], rest, pattern);
    }
  }

  lemma NothingFits(s: string, pattern: string)
    requires pattern != "" && |s| < |pattern|
    ensures First(s, pattern) == None
  {
  }

  // ---------------------------------------------------------------- lines

  predicate CleanLine(s: string) { Without(s, '\r') && Without(s, '\n') }

  /** The lines up to and including the first empty one; `None` for a bare CR or LF, or no such line. */
  function Lines(s: string): (r: Option<seq<string>>)
    ensures r.Some? ==> r.value != [] && r.value[|r.value| - 1] == ""
    decreases |s|
  {
    var crlf := First(s, CRLF);
    if crlf.None? then None
    else
      var line := s[..crlf.value];
      if !CleanLine(line) then None
      else if line == "" then Some([line])
      else
        var rest := Lines(s[crlf.value + 2..]);
        if rest.None? then None else Some([line] + rest.value)
  }

  function Render(lines: seq<string>): string {
    if lines == [] then CRLF else lines[0] + CRLF + Render(lines[1..])
  }

  ghost predicate Renderable(lines: seq<string>) { forall l | l in lines :: l != "" && CleanLine(l) }

  lemma {:induction false} RenderLength(lines: seq<string>)
    ensures |Render(lines)| >= 2 && (lines != [] ==> |Render(lines)| >= |lines[0]| + 4)
    decreases |lines|
  {
    if lines != [] {
      RenderLength(lines[1..]);
    }
  }

  lemma FirstCrlf(line: string, rest: string)
    requires CleanLine(line)
    ensures First(line + CRLF + rest, CRLF) == Some(|line|)
  {
    var tail := CRLF + rest;
    assert line + CRLF + rest == line + tail;
    assert Without(line, CRLF[0]);
    FirstSkips(line, tail, CRLF);
    assert tail[..2] == CRLF;
  }

  lemma NoLines()
    ensures Lines(CRLF) == Some([""])
  {
    assert CRLF[..2] == CRLF;
    assert First(CRLF, CRLF) == Some(0);
    assert CRLF[..0] == "";
  }

  /** Reading lines inverts writing them. */
  lemma {:induction false} LinesOfRender(lines: seq<string>)
    requires Renderable(lines)
    ensures Lines(Render(lines)) == Some(lines + [""])
    decreases |lines|
  {
    hide First;
    if lines == [] {
      NoLines();
      assert lines + [""] == [""];
    } else {
      var line, rest := lines[0], Render(lines[1..]);
      var s := Render(lines);
      assert s == line + CRLF + rest;
      FirstCrlf(line, rest);
      assert s[..|line|] == line && s[|line| + 2..] == rest;
      LinesOfRender(lines[1..]);
      assert [line] + (lines[1..] + [""]) == lines + [""];
    }
  }

  lemma RenderHead(lines: seq<string>)
    requires lines != []
    ensures Render(lines) == lines[0] + (CRLF + Render(lines[1..]))
    ensures |Render(lines)| > |lines[0]| && Render(lines)[..|lines[0]|] == lines[0]
  {
    assert lines[0] + CRLF + Render(lines[1..]) == lines[0] + (CRLF + Render(lines[1..]));
  }

  /** The blank line ends the rendered text. */
  lemma {:induction false} BlankLineOfRender(lines: seq<string>)
    requires Renderable(lines) && lines != []
    ensures First(Render(lines), BLANK_LINE) == Some(|Render(lines)| - 4)
    decreases |lines|
  {
    hide First, Render;
    var line, tail := lines[0], lines[1..];
    var rest := Render(tail);
    RenderHead(lines);
    RenderLength(lines);
    assert line in lines;
    assert Without(line, BLANK_LINE[0]);
    FirstSkips(line, CRLF + rest, BLANK_LINE);
    if tail == [] {
      LastLineEnds();
    } else {
      RenderHead(tail);
      RenderLength(tail);
      BlankLineOfRender(tail);
      assert tail[0] in lines;
      NextLineStarts(tail[0], rest);
    }
  }

  lemma LastLineEnds()
    ensures CRLF + Render([]) == BLANK_LINE && First(BLANK_LINE, BLANK_LINE) == Some(0)
  {
    assert BLANK_LINE[..4] == BLANK_LINE;
  }

  /** Between two lines there is no blank line. */
  lemma NextLineStarts(next: string, rest: string)
    requires next != "" && CleanLine(next) && |rest| > |next| && rest[..|next|] == next
    ensures First(CRLF + rest, BLANK_LINE) == Later(First(rest, BLANK_LINE), 2)
  {
    hide First;
    var s := CRLF + rest;
    assert rest[0] == rest[..|next|][0] == next[0];
    assert s[2] == rest[0] != '\r';
    var t := s[1..];
    assert t == "\n" + rest && t[1..] == rest;
    FirstStep(t, BLANK_LINE);
    NotBlankHere(s);
  }

  /** A CRLF followed by anything but CR does not start a blank line. */
  lemma NotBlankHere(s: string)
    requires |s| > 2 && s[2] != '\r'
    ensures First(s, BLANK_LINE) == Later(First(s[1..], BLANK_LINE), 1)
  {
    if |s| >= 4 {
      assert s[..4][2] == s[2];
    } else {
      NothingFits(s[1..], BLANK_LINE);
    }
  }

  lemma LinesStep(s: string)
    ensures var crlf := First(s, CRLF);
            if crlf.None? || !CleanLine(s[..crlf.value]) then Lines(s).None?
            else if crlf.value == 0 then Lines(s) == Some([""])
            else Lines(s) == After([s[..crlf.value]], Lines(s[crlf.value + 2..]))
  {
    hide First, CleanLine;
  }

  /** The line loop of the parsers. */
  method SplitLines(block: string) returns (lines: Option<seq<string>>)
    ensures lines == Lines(block)
  {
    hide First, CleanLine, Lines;
    var done: seq<string> := [];
    var pos: nat := 0;
    assert block[0..] == block;
    assert Lines(block) == After([], Lines(block)) by {
      if Lines(block).Some? {
        assert [] + Lines(block).value == Lines(block).value;
      }
    }
    while true
      invariant pos <= |block|
      invariant Lines(block) == After(done, Lines(block[pos..]))
      decreases |block| - pos
    {
      LinesStep(block[pos..]);
      var crlf := First(block[pos..], CRLF);
      if crlf.None? {
        return None;
      }
      var end := pos + crlf.value;
      var line := block[pos..end];
      assert block[pos..][..crlf.value] == line && block[pos..][crlf.value + 2..] == block[end + 2..];
      if !CleanLine(line) {
        return None;
      }
      AfterOne(done, line, Lines(block[end + 2..]));
      done := done + [line];
      pos := end + 2;
      if line == "" {
        break;
      }
    }
    lines := Some(done);
  }

  function After(done: seq<string>, rest: Option<seq<string>>): Option<seq<string>> {
    if rest.None? then None else Some(done + rest.value)
  }

  lemma AfterOne(done: seq<string>, line: string, rest: Option<seq<string>>)
    ensures rest.Some? ==> After(done, Some([line] + rest.value)) == After(done + [line], rest)
    ensures After(done, Some([line])) == Some(done + [line])
  {
    if rest.Some? {
      assert done + ([line] + rest.value) == done + [line] + rest.value;
    }
  }

  // ---------------------------------------------------------------- fields

  /** The fields between separators. */
  function Fields(s: string, sep: char): (fs: seq<string>)
    ensures fs != []
    decreases |s|
  {
    var i := First(s, [sep]);
    if i.None? then [s] else [s[..i.value]] + Fields(s[i.value + 1..], sep)
  }

  /** `splitExact`: the fields, when there are `count` of them and none is empty. */
  function ExactFields(s: string, sep: char, count: nat): seq<string> {
    var fs := Fields(s, sep);
    if |fs| != count || "" in fs then [] else fs
  }

  lemma FieldsStep(s: string, sep: char)
    ensures var i := First(s, [sep]);
            Fields(s, sep) == if i.None? then [s] else [s[..i.value]] + Fields(s[i.value + 1..], sep)
  {
    hide First;
  }

  lemma FieldsJoin(done: seq<string>, field: string, rest: seq<string>)
    ensures done + ([field] + rest) == done + [field] + rest
  {
  }

  method SplitFields(s: string, sep: char) returns (fields: seq<string>)
    ensures fields == Fields(s, sep)
  {
    hide First, Fields;
    fields := [];
    var start: nat := 0;
    assert s[0..] == s;
    assert [] + Fields(s, sep) == Fields(s, sep);
    while true
      invariant start <= |s|
      invariant Fields(s, sep) == fields + Fields(s[start..], sep)
      decreases |s| - start
    {
      FieldsStep(s[start..], sep);
      var pos := First(s[start..], [sep]);
      if pos.None? {
        fields := fields + [s[start..]];
        break;
      }
      var end := start + pos.value;
      assert s[start..][..pos.value] == s[start..end] && s[start..][pos.value + 1..] == s[end + 1..];
      FieldsJoin(fields, s[start..end], Fields(s[end + 1..], sep));
      fields := fields + [s[start..end]];
      start := end + 1;
    }
  }

  method SplitExact(s: string, sep: char, count: nat) returns (fields: seq<string>)
    ensures fields == ExactFields(s, sep, count)
  {
    hide Fields;
    fields := SplitFields(s, sep);
    if |fields| != count {
      return [];
    }
    for i := 0 to |fields|
      invariant forall j | 0 <= j < i :: fields[j] != ""
    {
      if fields[i] == "" {
        return [];
      }
    }
  }

  lemma OneField(s: string, sep: char)
    requires Without(s, sep)
    ensures Fields(s, sep) == [s]
  {
    FirstSkips(s, "", [sep]);
    assert s + "" == s;
    NothingFits("", [sep]);
  }

  lemma FieldThen(head: string, sep: char, rest: string)
    requires Without(head, sep)
    ensures Fields(head + [sep] + rest, sep) == [head] + Fields(rest, sep)
  {
    var s := head + [sep] + rest;
    var tail := [sep] + rest;
    assert s == head + tail;
    FirstSkips(head, tail, [sep]);
    assert tail[..1] == [sep];
    assert s[..|head|] == head && s[|head| + 1..] == rest;
  }
}
