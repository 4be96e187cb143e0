/**
 Domain names: host-name normalisation, the label encoding, and `decodeName` with compression
 pointers (section 4.1.4 of RFC 1035).

 `Labels` reads a name as the list of labels it spells, and `FieldLength` the bytes it takes in
 its own record without following any pointer; the decoder is shown to compute both.
 */
module DnsNames {
  import opened Primitives

  const MAX_LABEL: nat := 63
  const MAX_NAME: nat := 253
  const MAX_HOPS: nat := 16
  const DOT: u8 := 46
  const HYPHEN: u8 := 45

  type Label = seq<u8>

  function Lower(b: u8): u8 { if 65 <= b <= 90 then b + 32 else b }

  function LowerAll(s: seq<u8>): (r: seq<u8>)
    ensures |r| == |s| && forall i | 0 <= i < |s| :: r[i] == Lower(s[i])
  {
    if s == [] then [] else [Lower(s[0])] + LowerAll(s[1..])
  }

  lemma LowerConcat(a: seq<u8>, b: seq<u8>)
    ensures LowerAll(a + b) == LowerAll(a) + LowerAll(b)
  {
  }

  // ---------------------------------------------------------------- dotted names

  /** The position of the first dot from `from` on, or the length. */
  function FindDot(s: seq<u8>, from: nat): (i: nat)
    requires from <= |s|
    ensures from <= i <= |s| && (i < |s| ==> s[i] == DOT) && forall j | from <= j < i :: s[j] != DOT
    decreases |s| - from
  {
    if from == |s| || s[from] == DOT then from else FindDot(s, from + 1)
  }

  function Split(s: seq<u8>): (labels: seq<Label>)
    ensures labels != []
    decreases |s|
  {
    var dot := FindDot(s, 0);
    if dot == |s| then [s] else [s[..dot]] + Split(s[dot + 1..])
  }

  function Join(labels: seq<Label>): seq<u8> {
    if labels == [] then []
    else if |labels| == 1 then labels[0]
    else labels[0] + [DOT] + Join(labels[1..])
  }

  lemma {:induction false} JoinSplit(s: seq<u8>)
    ensures Join(Split(s)) == s
    decreases |s|
  {
    var dot := FindDot(s, 0);
    if dot < |s| {
      JoinSplit(s[dot + 1..]);
      assert Split(s)[1..] == Split(s[dot + 1..]);
      assert s == s[..dot] + [DOT] + s[dot + 1..];
    }
  }

  // ---------------------------------------------------------------- host names

  datatype HostnameError = Empty | TooLong | EmptyLabel | LabelTooLong | LeadingOrTrailingHyphen | InvalidChar

  predicate IsLdh(c: u8) { 97 <= c <= 122 || 65 <= c <= 90 || 48 <= c <= 57 || c == HYPHEN }

  predicate AllLdh(part: Label) { forall i | 0 <= i < |part| :: IsLdh(part[i]) }

  function LabelError(part: Label): Option<HostnameError> {
    if part == [] then Some(EmptyLabel)
    else if |part| > MAX_LABEL then Some(LabelTooLong)
    else if part[0] == HYPHEN || part[|part| - 1] == HYPHEN then Some(LeadingOrTrailingHyphen)
    else if !AllLdh(part) then Some(InvalidChar)
    else None
  }

  function FirstError(labels: seq<Label>): Option<HostnameError> {
    if labels == [] then None
    else if LabelError(labels[0]).Some? then LabelError(labels[0])
    else FirstError(labels[1..])
  }

  function Normalized(host: seq<u8>): Result<seq<u8>, HostnameError> {
    if host == [] then Err(Empty)
    else if |host| > MAX_NAME then Err(TooLong)
    else
      var e := FirstError(Split(host));
      if e.Some? then Err(e.value) else Ok(LowerAll(host))
  }

  method CheckLabel(part: Label) returns (e: Option<HostnameError>)
    ensures e == LabelError(part)
  {
    if part == [] {
      return Some(EmptyLabel);
    }
    if |part| > MAX_LABEL {
      return Some(LabelTooLong);
    }
    if part[0] == HYPHEN || part[|part| - 1] == HYPHEN {
      return Some(LeadingOrTrailingHyphen);
    }
    for i := 0 to |part|
      invariant forall j | 0 <= j < i :: IsLdh(part[j])
    {
      if !IsLdh(part[i]) {
        return Some(InvalidChar);
      }
    }
    e := None;
  }

  lemma {:induction false} FindDotFrom(host: seq<u8>, from: nat, i: nat)
    requires from + i <= |host|
    ensures FindDot(host, from + i) == from + FindDot(host[from..], i)
    decreases |host| - from - i
  {
    if from + i < |host| && host[from + i] != DOT {
      FindDotFrom(host, from, i + 1);
    }
  }

  lemma SplitFrom(host: seq<u8>, from: nat)
    requires from <= |host|
    ensures var dot := FindDot(host, from);
            if dot == |host| then Split(host[from..]) == [host[from..]]
            else Split(host[from..]) == [host[from..dot]] + Split(host[dot + 1..])
  {
    hide FindDot;
    FindDotFrom(host, from, 0);
    var dot := FindDot(host, from);
    if dot < |host| {
      assert host[from..][..dot - from] == host[from..dot];
      assert host[from..][dot - from + 1..] == host[dot + 1..];
    }
  }

  /** One turn of the label loop: the error of the label at hand, or those of the rest. */
  lemma ErrorFrom(host: seq<u8>, from: nat)
    requires from <= |host|
    ensures var dot := FindDot(host, from);
            var e := LabelError(host[from..dot]);
            FirstError(Split(host[from..])) ==
            if e.Some? then e else if dot == |host| then None else FirstError(Split(host[dot + 1..]))
  {
    hide FindDot, LabelError, Split;
    SplitFrom(host, from);
    var dot := FindDot(host, from);
    var labels := Split(host[from..]);
    if dot == |host| {
      assert host[from..dot] == host[from..];
      assert labels[1..] == [];
    } else {
      assert labels[1..] == Split(host[dot + 1..]);
    }
  }

  /** The text normalised so far: everything before the dot in front of `from`. */
  predicate NormalizedTo(text: seq<u8>, host: seq<u8>, from: nat) {
    from <= |host|
    && (if from == 0 then text == [] else from > 1 && host[from - 1] == DOT && text == LowerAll(host[..from - 1]))
  }

  lemma NormalizedNext(text: seq<u8>, host: seq<u8>, from: nat, dot: nat)
    requires NormalizedTo(text, host, from) && from < dot <= |host|
    ensures var out := (if text == [] then [] else text + [DOT]) + LowerAll(host[from..dot]);
            out == LowerAll(host[..dot]) && (dot < |host| && host[dot] == DOT ==> NormalizedTo(out, host, dot + 1))
  {
    hide LowerAll;
    if from > 0 {
      var before := host[..from - 1];
      assert host[..dot] == before + [DOT] + host[from..dot];
      LowerConcat(before + [DOT], host[from..dot]);
      LowerConcat(before, [DOT]);
      LowerDot();
      assert |LowerAll(before)| == |before| > 0;
    } else {
      assert host[..dot] == host[from..dot];
    }
    if dot < |host| {
      assert host[..dot + 1 - 1] == host[..dot];
    }
  }

  lemma LowerDot()
    ensures LowerAll([DOT]) == [DOT]
  {
  }

  /** The label loop of `normalizeHostname`. */
  method NormalizeHostname(host: seq<u8>) returns (r: Result<seq<u8>, HostnameError>)
    ensures r == Normalized(host)
  {
    hide LabelError, FirstError, Split, NormalizedTo, LowerAll;
    if host == [] || |host| > MAX_NAME {
      return Err(if host == [] then Empty else TooLong);
    }
    var normalized: seq<u8> := [];
    var labelStart: nat := 0;
    assert host[0..] == host;
    assert NormalizedTo([], host, 0) by { NothingNormalized(host); }
    while true
      invariant labelStart <= |host|
      invariant FirstError(Split(host)) == FirstError(Split(host[labelStart..]))
      invariant NormalizedTo(normalized, host, labelStart)
      decreases |host| - labelStart
    {
      var dot := FindDot(host, labelStart);
      var part := host[labelStart..dot];
      ErrorFrom(host, labelStart);
      var e := CheckLabel(part);
      if e.Some? {
        return Err(e.value);
      }
      LabelNotEmpty(part);
      NormalizedNext(normalized, host, labelStart, dot);
      if normalized != [] {
        normalized := normalized + [DOT];
      }
      normalized := normalized + LowerAll(part);
      if dot == |host| {
        assert host[..dot] == host;
        break;
      }
      labelStart := dot + 1;
    }
    r := Ok(normalized);
  }

  lemma NothingNormalized(host: seq<u8>)
    ensures NormalizedTo([], host, 0)
  {
  }

  lemma LabelNotEmpty(part: Label)
    requires LabelError(part).None?
    ensures part != [] && |part| <= MAX_LABEL
  {
  }

  /** An accepted host name only changes case, and normalising again changes nothing. */
  lemma NormalizedTwice(host: seq<u8>)
    requires Normalized(host).Ok?
    ensures Normalized(Normalized(host).value) == Normalized(host)
    ensures |Normalized(host).value| == |host|
  {
    LowerSplit(host);
    LowerErrors(Split(host));
    LowerTwice(host);
  }

  lemma LowerTwice(s: seq<u8>)
    ensures LowerAll(LowerAll(s)) == LowerAll(s)
  {
  }

  function LowerEach(labels: seq<Label>): seq<Label> {
    if labels == [] then [] else [LowerAll(labels[0])] + LowerEach(labels[1..])
  }

  lemma {:induction false} LowerSplit(s: seq<u8>)
    ensures Split(LowerAll(s)) == LowerEach(Split(s))
    decreases |s|
  {
    var t := LowerAll(s);
    var dot, dot' := FindDot(s, 0), FindDot(t, 0);
    assert dot < |s| ==> t[dot] == DOT;
    assert dot' < |s| ==> s[dot'] == DOT;
    assert dot == dot';
    if dot < |s| {
      assert t[..dot] == LowerAll(s[..dot]) && t[dot + 1..] == LowerAll(s[dot + 1..]);
      LowerSplit(s[dot + 1..]);
    }
  }

  lemma LowerLabelError(part: Label)
    ensures LabelError(LowerAll(part)) == LabelError(part)
  {
    var low := LowerAll(part);
    assert AllLdh(low) <==> AllLdh(part) by {
      if AllLdh(low) {
        forall i | 0 <= i < |part|
          ensures IsLdh(part[i])
        {
          assert IsLdh(low[i]);
        }
      }
    }
  }

  lemma {:induction false} LowerErrors(labels: seq<Label>)
    ensures FirstError(LowerEach(labels)) == FirstError(labels)
    decreases |labels|
  {
    hide LabelError;
    if labels != [] {
      LowerLabelError(labels[0]);
      LowerErrors(labels[1..]);
      assert LowerEach(labels)[1..] == LowerEach(labels[1..]);
    }
  }

  // ---------------------------------------------------------------- encoded names

  function EncodeLabels(labels: seq<Label>): seq<u8>
    requires forall l | l in labels :: |l| <= MAX_LABEL
  {
    if labels == [] then [] else [|labels[0]|] + labels[0] + EncodeLabels(labels[1..])
  }

  predicate IsPointer(b: u8) { b >= 192 }

  function Target(packet: seq<u8>, at: nat): nat
    requires at + 1 < |packet|
  {
    (packet[at] as int % 64) * 256 + packet[at + 1] as int
  }

  /** The labels spelled from `at` on, following at most `hops` pointers. */
  function Labels(packet: seq<u8>, at: nat, hops: nat): Option<seq<Label>>
    decreases hops, if at <= |packet| then |packet| - at else 0
  {
    if at >= |packet| then None
    else
      var n := packet[at];
      if IsPointer(n) then
        if at + 1 >= |packet| || Target(packet, at) >= at || hops == 0 then None
        else Labels(packet, Target(packet, at), hops - 1)
      else if n == 0 then Some([])
      else if n > MAX_LABEL || at + 1 + n > |packet| then None
      else
        var rest := Labels(packet, at + 1 + n, hops);
        if rest.None? then None else Some([LowerAll(packet[at + 1..at + 1 + n])] + rest.value)
  }

  /** The bytes of the name in its own record: up to its zero label or its first pointer. */
  function FieldLength(packet: seq<u8>, at: nat): nat
    decreases if at <= |packet| then |packet| - at else 0
  {
    if at >= |packet| then 0
    else if IsPointer(packet[at]) then 2
    else if packet[at] == 0 then 1
    else 1 + packet[at] as int + FieldLength(packet, at + 1 + packet[at])
  }

  datatype Name = Name(text: seq<u8>, length: nat)

  /** The reference: the labels joined, unless the text is too long. */
  function Decoded(packet: seq<u8>, start: nat): Option<Name> {
    var labels := Labels(packet, start, MAX_HOPS);
    if labels.None? || |Join(labels.value)| > MAX_NAME then None
    else Some(Name(Join(labels.value), FieldLength(packet, start)))
  }

  /** The text so far, continued with more labels. */
  function Continue(text: seq<u8>, first: bool, labels: seq<Label>): seq<u8> {
    if labels == [] then text else if first then Join(labels) else text + [DOT] + Join(labels)
  }

  lemma ContinueOne(text: seq<u8>, first: bool, part: Label, rest: seq<Label>)
    requires first ==> text == []
    ensures Continue(text, first, [part] + rest) == Continue(if first then part else text + [DOT] + part, false, rest)
    ensures |Continue(if first then part else text + [DOT] + part, false, rest)|
            >= |if first then part else text + [DOT] + part|
  {
    var all := [part] + rest;
    assert all[1..] == rest;
    if rest != [] && !first {
      assert text + [DOT] + (part + [DOT] + Join(rest)) == text + [DOT] + part + [DOT] + Join(rest);
    }
  }

  /** What the loop still has to yield from its current place. */
  function Outcome(packet: seq<u8>, cursor: nat, hops: nat, text: seq<u8>, first: bool): Option<seq<u8>>
    requires hops <= MAX_HOPS
  {
    var labels := Labels(packet, cursor, MAX_HOPS - hops);
    if labels.None? || |Continue(text, first, labels.value)| > MAX_NAME then None
    else Some(Continue(text, first, labels.value))
  }

  lemma OutcomeLabel(packet: seq<u8>, cursor: nat, hops: nat, text: seq<u8>, first: bool)
    requires hops <= MAX_HOPS && cursor < |packet| && 0 < packet[cursor] <= MAX_LABEL
             && cursor + 1 + packet[cursor] <= |packet|
    requires first ==> text == []
    ensures var part := LowerAll(packet[cursor + 1..cursor + 1 + packet[cursor]]);
            var grown := if first then part else text + [DOT] + part;
            && Outcome(packet, cursor, hops, text, first)
               == Outcome(packet, cursor + 1 + packet[cursor], hops, grown, false)
            && (|grown| > MAX_NAME ==> Outcome(packet, cursor, hops, text, first).None?)
  {
    hide Continue;
    var part := LowerAll(packet[cursor + 1..cursor + 1 + packet[cursor]]);
    var rest := Labels(packet, cursor + 1 + packet[cursor], MAX_HOPS - hops);
    if rest.Some? {
      ContinueOne(text, first, part, rest.value);
    }
  }

  /** The appending loop over the bytes of a label. */
  method AppendLower(text: seq<u8>, bytes: seq<u8>) returns (out: seq<u8>)
    ensures out == text + LowerAll(bytes)
  {
    out := text;
    for i := 0 to |bytes|
      invariant out == text + LowerAll(bytes[..i])
    {
      assert bytes[..i + 1] == bytes[..i] + [bytes[i]];
      LowerConcat(bytes[..i], [bytes[i]]);
      out := out + [Lower(bytes[i])];
    }
    assert bytes[..|bytes|] == bytes;
  }

  /** One turn of the loop, on what it still has to yield. */
  lemma OutcomeStep(packet: seq<u8>, at: nat, hops: nat, text: seq<u8>, first: bool)
    requires hops <= MAX_HOPS && (first ==> text == []) && |text| <= MAX_NAME
    ensures var o := Outcome(packet, at, hops, text, first);
            if at >= |packet| then o.None?
            else if IsPointer(packet[at]) then
              if at + 1 >= |packet| || Target(packet, at) >= at || hops == MAX_HOPS then o.None?
              else o == Outcome(packet, Target(packet, at), hops + 1, text, first)
            else if packet[at] == 0 then o == Some(text)
            else packet[at] > MAX_LABEL || at + 1 + packet[at] > |packet| ==> o.None?
  {
    hide Labels, Continue;
    NameStep(packet, at, hops);
    ContinueNone(text, first);
  }

  lemma FieldStep(packet: seq<u8>, at: nat)
    requires at < |packet|
    ensures FieldLength(packet, at) == if IsPointer(packet[at]) then 2 else if packet[at] == 0 then 1
                                       else 1 + packet[at] as int + FieldLength(packet, at + 1 + packet[at])
  {
  }

  /** The body of the loop for an ordinary label. */
  method AppendLabel(text: seq<u8>, first: bool, bytes: seq<u8>) returns (out: seq<u8>)
    requires first ==> text == []
    ensures out == if first then LowerAll(bytes) else text + [DOT] + LowerAll(bytes)
  {
    out := text;
    if !first {
      out := out + [DOT];
    }
    out := AppendLower(out, bytes);
    assert [] + LowerAll(bytes) == LowerAll(bytes);
  }

  /**
   `decodeName`.  The loop ends because every turn either uses up a hop or moves towards the end
   of the packet; backward pointers alone would not be enough, since labels move forward again.
   */
  method DecodeName(packet: seq<u8>, start: nat) returns (r: Option<Name>)
    ensures r == Decoded(packet, start)
  {
    hide Outcome, FieldLength, Decoded, Target, LowerAll;
    var text: seq<u8> := [];
    var cursor: nat := start;
    var recordEnd: Option<nat> := None;
    var hops := 0;
    var first := true;
    OutcomeAtStart(packet, start);
    while true
      invariant hops <= MAX_HOPS && (first ==> text == []) && |text| <= MAX_NAME
      invariant Outcome(packet, cursor, hops, text, first) == Outcome(packet, start, 0, [], true)
      invariant start + FieldLength(packet, start) ==
                if recordEnd.Some? then recordEnd.value else cursor + FieldLength(packet, cursor)
      decreases MAX_HOPS - hops, if cursor <= |packet| then |packet| - cursor else 0
    {
      OutcomeStep(packet, cursor, hops, text, first);
      if cursor >= |packet| {
        return None;
      }
      FieldStep(packet, cursor);
      var n := packet[cursor];
      if IsPointer(n) {
        if cursor + 1 >= |packet| {
          return None;
        }
        if recordEnd.None? {
          recordEnd := Some(cursor + 2);
        }
        if Target(packet, cursor) >= cursor {
          return None;
        }
        hops := hops + 1;
        if hops > MAX_HOPS {
          return None;
        }
        cursor := Target(packet, cursor);
        continue;
      }
      if n == 0 {
        if recordEnd.None? {
          recordEnd := Some(cursor + 1);
        }
        break;
      }
      if n > MAX_LABEL || cursor + 1 + n > |packet| {
        return None;
      }
      OutcomeLabel(packet, cursor, hops, text, first);
      text := AppendLabel(text, first, packet[cursor + 1..cursor + 1 + n]);
      first := false;
      if |text| > MAX_NAME {
        return None;
      }
      cursor := cursor + 1 + n;
    }
    r := Some(Name(text, recordEnd.value - start));
  }

  lemma ContinueNone(text: seq<u8>, first: bool)
    requires first ==> text == []
    ensures Continue(text, first, []) == text
  {
  }

  lemma OutcomeAtStart(packet: seq<u8>, start: nat)
    ensures var o, d := Outcome(packet, start, 0, [], true), Decoded(packet, start);
            o.Some? == d.Some? && (d.Some? ==> d.value == Name(o.value, FieldLength(packet, start)))
  {
    hide Labels, FieldLength;
  }

  /** One unfolding of the two references. */
  lemma NameStep(packet: seq<u8>, at: nat, hops: nat)
    requires hops <= MAX_HOPS
    ensures var l, f := Labels(packet, at, MAX_HOPS - hops), FieldLength(packet, at);
            if at >= |packet| then l.None?
            else if IsPointer(packet[at]) then
              f == 2 && (if at + 1 >= |packet| || Target(packet, at) >= at || hops == MAX_HOPS then l.None?
                         else l == Labels(packet, Target(packet, at), MAX_HOPS - hops - 1))
            else if packet[at] == 0 then l == Some([]) && f == 1
            else f == 1 + packet[at] as int + FieldLength(packet, at + 1 + packet[at])
                 && (packet[at] > MAX_LABEL || at + 1 + packet[at] > |packet| ==> l.None?)
  {
  }

  // ---------------------------------------------------------------- what a decoded name is

  /** A decoded name is short enough, lies inside the packet and is in lower case. */
  lemma {:induction false} LabelsInside(packet: seq<u8>, at: nat, hops: nat)
    requires Labels(packet, at, hops).Some?
    ensures at + FieldLength(packet, at) <= |packet| && 1 <= FieldLength(packet, at)
    ensures LowerEach(Labels(packet, at, hops).value) == Labels(packet, at, hops).value
    ensures forall l | l in Labels(packet, at, hops).value :: 1 <= |l| <= MAX_LABEL
    decreases hops, |packet| - at
  {
    var n := packet[at];
    if IsPointer(n) {
      LabelsInside(packet, Target(packet, at), hops - 1);
    } else if n != 0 {
      LabelsInside(packet, at + 1 + n, hops);
      var part := LowerAll(packet[at + 1..at + 1 + n]);
      LowerTwice(packet[at + 1..at + 1 + n]);
      var rest := Labels(packet, at + 1 + n, hops).value;
      assert ([part] + rest)[1..] == rest;
    }
  }

  lemma DecodedBounds(packet: seq<u8>, start: nat)
    requires Decoded(packet, start).Some?
    ensures var d := Decoded(packet, start).value;
            |d.text| <= MAX_NAME && 1 <= d.length && start + d.length <= |packet| && LowerAll(d.text) == d.text
  {
    hide Labels, FieldLength;
    LabelsInside(packet, start, MAX_HOPS);
    LowerJoin(Labels(packet, start, MAX_HOPS).value);
  }

  lemma {:induction false} LowerJoin(labels: seq<Label>)
    ensures LowerAll(Join(labels)) == Join(LowerEach(labels))
    decreases |labels|
  {
    if |labels| > 1 {
      LowerJoin(labels[1..]);
      assert LowerEach(labels)[1..] == LowerEach(labels[1..]) && |LowerEach(labels)| > 1;
      LowerConcat(labels[0] + [DOT], Join(labels[1..]));
      LowerConcat(labels[0], [DOT]);
    } else if |labels| == 1 {
      assert LowerEach(labels) == [LowerAll(labels[0])];
    }
  }

  // ---------------------------------------------------------------- the round trip

  lemma SliceHead(packet: seq<u8>, at: nat, n: u8, head: seq<u8>, tail: seq<u8>)
    requires at <= |packet| && packet[at..] == [n] + head + tail && n == |head|
    ensures at + 1 + n <= |packet| && packet[at] == n && packet[at + 1..at + 1 + n] == head
            && packet[at + 1 + n..] == tail
  {
    var all := [n] + head + tail;
    assert packet[at] == packet[at..][0] == all[0];
    assert packet[at + 1..at + 1 + n] == packet[at..][1..1 + n] == all[1..1 + n];
    assert packet[at + 1 + n..] == packet[at..][1 + n..] == all[1 + n..];
  }

  lemma EncodedHead(packet: seq<u8>, at: nat, labels: seq<Label>, rest: seq<u8>)
    requires labels != [] && forall l | l in labels :: |l| <= MAX_LABEL
    requires at <= |packet| && packet[at..] == EncodeLabels(labels) + [0] + rest
    ensures var n := |labels[0]|;
            && at + 1 + n <= |packet| && packet[at] == n && packet[at + 1..at + 1 + n] == labels[0]
            && packet[at + 1 + n..] == EncodeLabels(labels[1..]) + [0] + rest
  {
    var n: u8 := |labels[0]|;
    var inner := EncodeLabels(labels[1..]);
    Regroup([n] + labels[0], inner, [0], rest);
    SliceHead(packet, at, n, labels[0], inner + [0] + rest);
  }

  lemma Regroup(a: seq<u8>, b: seq<u8>, c: seq<u8>, d: seq<u8>)
    ensures a + b + c + d == a + (b + c + d)
  {
  }

  lemma LabelStep(packet: seq<u8>, at: nat, hops: nat, n: u8)
    requires at < |packet| && packet[at] == n && 0 < n <= MAX_LABEL && at + 1 + n <= |packet|
    ensures var rest := Labels(packet, at + 1 + n, hops);
            rest.Some? ==> Labels(packet, at, hops) == Some([LowerAll(packet[at + 1..at + 1 + n])] + rest.value)
    ensures FieldLength(packet, at) == 1 + n as int + FieldLength(packet, at + 1 + n)
  {
    hide LowerAll;
  }

  lemma EncodedEnd(packet: seq<u8>, at: nat, rest: seq<u8>, hops: nat)
    requires at <= |packet| && packet[at..] == EncodeLabels([]) + [0] + rest
    ensures Labels(packet, at, hops) == Some([]) && FieldLength(packet, at) == 1
  {
    assert packet[at..][0] == 0;
    assert packet[at] == 0;
  }

  lemma EncodedSize(labels: seq<Label>)
    requires labels != [] && forall l | l in labels :: |l| <= MAX_LABEL
    ensures |EncodeLabels(labels)| == 1 + |labels[0]| + |EncodeLabels(labels[1..])|
  {
  }

  /** A name without pointers spells its labels, in any packet around it. */
  lemma {:induction false} EncodedSpells(packet: seq<u8>, at: nat, labels: seq<Label>, rest: seq<u8>, hops: nat)
    requires forall l | l in labels :: 1 <= |l| <= MAX_LABEL
    requires at <= |packet| && packet[at..] == EncodeLabels(labels) + [0] + rest
    ensures Labels(packet, at, hops) == Some(LowerEach(labels))
    ensures FieldLength(packet, at) == |EncodeLabels(labels)| + 1
    decreases |labels|
  {
    hide Labels, FieldLength, EncodeLabels, LowerAll;
    if labels == [] {
      EncodedEnd(packet, at, rest, hops);
      assert |EncodeLabels([])| == 0 by { NoLabels(); }
    } else {
      EncodedHead(packet, at, labels, rest);
      EncodedSize(labels);
      EncodedSpells(packet, at + 1 + |labels[0]|, labels[1..], rest, hops);
      LabelStep(packet, at, hops, |labels[0]|);
    }
  }

  lemma NoLabels()
    ensures EncodeLabels([]) == []
  {
  }

  lemma {:induction false} EncodedLength(s: seq<u8>)
    requires forall l | l in Split(s) :: |l| <= MAX_LABEL
    ensures |EncodeLabels(Split(s))| == |s| + 1
    decreases |s|
  {
    var dot := FindDot(s, 0);
    if dot < |s| {
      var rest := Split(s[dot + 1..]);
      assert Split(s)[1..] == rest;
      assert forall l | l in rest :: l in Split(s);
      EncodedLength(s[dot + 1..]);
    } else {
      assert Split(s) == [s] && [s][1..] == [];
    }
  }

  lemma {:induction false} ValidLabels(labels: seq<Label>)
    requires FirstError(labels).None?
    ensures forall l | l in labels :: 1 <= |l| <= MAX_LABEL
    decreases |labels|
  {
    if labels != [] {
      ValidLabels(labels[1..]);
      LabelNotEmpty(labels[0]);
      assert labels == [labels[0]] + labels[1..];
    }
  }

  /** An encoded normalised host name is decoded to itself, in |host| + 2 bytes, whatever surrounds it. */
  lemma EncodedRoundTrip(packet: seq<u8>, at: nat, host: seq<u8>, labels: seq<Label>, rest: seq<u8>)
    requires Normalized(host) == Ok(host) && at <= |packet| && labels == Split(host)
    requires (forall l | l in labels :: |l| <= MAX_LABEL) && packet[at..] == EncodeLabels(labels) + [0] + rest
    ensures Decoded(packet, at) == Some(Name(host, |host| + 2))
  {
    hide Labels, FieldLength, Split, Join, FirstError, EncodeLabels, LowerEach;
    ValidLabels(labels);
    EncodedSpells(packet, at, labels, rest, MAX_HOPS);
    EncodedLength(host);
    LowerSplit(host);
    JoinSplit(host);
  }

  /** The walk of `Labels` up to its pointer number `hops`: where the pointer leads, and the labels read on the way. */
  function LabelsAlong(packet: seq<u8>, at: nat, hops: nat): (nat, seq<Label>)
    decreases hops, if at <= |packet| then |packet| - at else 0
  {
    if hops == 0 || at >= |packet| then (at, [])
    else if IsPointer(packet[at]) then
      if at + 1 >= |packet| || Target(packet, at) >= at then (at, [])
      else LabelsAlong(packet, Target(packet, at), hops - 1)
    else if packet[at] == 0 || packet[at] > MAX_LABEL || at + 1 + packet[at] > |packet| then (at, [])
    else
      var (stop, rest) := LabelsAlong(packet, at + 1 + packet[at], hops);
      (stop, [LowerAll(packet[at + 1..at + 1 + packet[at]])] + rest)
  }

  function Repeat(l: Label, n: nat): (ls: seq<Label>)
    ensures |ls| == n && forall i | 0 <= i < n :: ls[i] == l
  {
    if n == 0 then [] else [l] + Repeat(l, n - 1)
  }

  /**
   Backward pointers alone do not end the walk.  In this packet the only pointer points backwards,
   and after any number of hops the walk is back at its start with one more label per hop, because
   the label in front moves it forward again.
   */
  lemma {:induction false} BackwardPointersCanLoop(n: nat)
    ensures var packet := [1, 97, 192, 0];
            && IsPointer(packet[2]) && Target(packet, 2) == 0 && LabelsAlong(packet, 0, n) == (0, Repeat([97], n))
            && Labels(packet, 0, n) == None
  {
    var packet: seq<u8> := [1, 97, 192, 0];
    assert Target(packet, 2) == 0;
    if n > 0 {
      BackwardPointersCanLoop(n - 1);
      assert LowerAll(packet[1..2]) == [97];
    }
    assert Labels(packet, 2, n) == None;
  }
}
