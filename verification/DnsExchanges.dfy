/** Whole DNS messages: what a query asks, and the verdict on every response written out from its parts. */
module DnsExchanges {
  import opened Primitives
  import opened BigEndian
  import opened DnsNames
  import opened DnsMessages

  /** A query asks one question, for the IPv4 address of its host, and wishes recursion. */
  lemma QueryAsks(id: u16, host: seq<u8>)
    requires Serializable(host)
    ensures var q := Query(id, host);
            && |q| >= HEADER_SIZE && HeaderOf(q) == Header(id, false, 0, false, 0, 1, 0, 0) && q[2] == 1
            && Asks(q, host) && |q| == |host| + 18
  {
    hide Split, EncodeLabels, Decoded;
    var q := Query(id, host);
    SerializableLabels(host);
    QueryFits(id, host);
    QueryRoundTrip(id, host);
    var h := QueryHeader(id);
    assert q[..12] == h;
    assert forall i | 2 <= i < 12 :: q[i] == h[i];
    var at := HEADER_SIZE + |host| + 2;
    EncodedLength(host);
    assert q[at..at + 2] == Encode16(1) && q[at + 2..at + 4] == Encode16(1);
    Read16Encoded(q, at, 1);
    Read16Encoded(q, at + 2, 1);
  }

  // ---------------------------------------------------------------- host names

  predicate LetterOrDigit(c: u8) { 97 <= c <= 122 || 65 <= c <= 90 || 48 <= c <= 57 }

  /** Letters, digits, hyphens and dots. */
  predicate HostChars(h: seq<u8>) { forall i | 0 <= i < |h| :: LetterOrDigit(h[i]) || h[i] == HYPHEN || h[i] == DOT }

  /** A letter or digit at both ends and on both sides of every dot. */
  predicate HostEdges(h: seq<u8>) {
    && h != [] && LetterOrDigit(h[0]) && LetterOrDigit(h[|h| - 1])
    && forall i | 0 < i < |h| - 1 && h[i] == DOT :: LetterOrDigit(h[i - 1]) && LetterOrDigit(h[i + 1])
  }

  predicate DotWithin(h: seq<u8>, i: nat, n: nat) { exists j | i <= j < i + n :: j < |h| && h[j] == DOT }

  /** A dot among any 64 characters in a row. */
  predicate ShortLabels(h: seq<u8>) { forall i: nat | i + 64 <= |h| :: DotWithin(h, i, 64) }

  predicate WellSpelled(h: seq<u8>) { HostChars(h) && HostEdges(h) && ShortLabels(h) }

  lemma LoneLabel(part: seq<u8>)
    requires DOT !in part
    ensures LabelError(part).None? <==> WellSpelled(part)
  {
    if WellSpelled(part) {
      assert part == part + [];
      NoDotIsShort(part, part, []);
    }
  }

  /** Text without a dot at the start of a name is shorter than 64 characters. */
  lemma NoDotIsShort(h: seq<u8>, part: seq<u8>, rest: seq<u8>)
    requires ShortLabels(h) && h == part + rest && DOT !in part
    ensures |part| < 64
  {
    if |h| >= 64 {
      assert DotWithin(h, 0, 64);
      var j :| 0 <= j < 64 && j < |h| && h[j] == DOT;
      assert forall i | 0 <= i < |part| :: h[i] == part[i] && part[i] in part;
      assert j >= |part|;
    }
  }

  lemma LabelThenRest(part: seq<u8>, rest: seq<u8>)
    requires DOT !in part
    ensures var h := part + [DOT] + rest; WellSpelled(h) <==> LabelError(part).None? && WellSpelled(rest)
  {
    var h := part + [DOT] + rest;
    var n := |part|;
    assert forall i | 0 <= i < n :: h[i] == part[i];
    assert h[n] == DOT;
    assert forall i | 0 <= i < |rest| :: h[n + 1 + i] == rest[i];
    if WellSpelled(h) {
      RestIsSpelled(h, part, rest);
    } else if LabelError(part).None? && WellSpelled(rest) {
      JoinIsSpelled(h, part, rest);
    }
  }

  lemma RestIsShort(h: seq<u8>, part: seq<u8>, rest: seq<u8>)
    requires h == part + [DOT] + rest && ShortLabels(h)
    ensures ShortLabels(rest)
  {
    var n := |part|;
    forall i: nat | i + 64 <= |rest|
      ensures DotWithin(rest, i, 64)
    {
      assert DotWithin(h, n + 1 + i, 64);
      var j :| n + 1 + i <= j < n + 1 + i + 64 && j < |h| && h[j] == DOT;
      assert rest[j - n - 1] == DOT;
    }
  }

  lemma RestHasEdges(h: seq<u8>, part: seq<u8>, rest: seq<u8>)
    requires h == part + [DOT] + rest && HostEdges(h)
    ensures part != [] && LetterOrDigit(part[0]) && LetterOrDigit(part[|part| - 1]) && HostEdges(rest)
  {
    var n := |part|;
    assert h[n] == DOT && !LetterOrDigit(DOT);
    assert n > 0 && n < |h| - 1;
    assert h[0] == part[0] && h[n - 1] == part[n - 1] && h[n + 1] == rest[0] && h[|h| - 1] == rest[|rest| - 1];
    forall i | 0 < i < |rest| - 1 && rest[i] == DOT
      ensures LetterOrDigit(rest[i - 1]) && LetterOrDigit(rest[i + 1])
    {
      var k := n + 1 + i;
      assert h[k] == DOT && h[k - 1] == rest[i - 1] && h[k + 1] == rest[i + 1];
    }
  }

  lemma RestIsSpelled(h: seq<u8>, part: seq<u8>, rest: seq<u8>)
    requires DOT !in part && h == part + [DOT] + rest && WellSpelled(h)
    ensures LabelError(part).None? && WellSpelled(rest)
  {
    hide ShortLabels, HostEdges;
    var n := |part|;
    assert h == part + ([DOT] + rest);
    NoDotIsShort(h, part, [DOT] + rest);
    RestIsShort(h, part, rest);
    RestHasEdges(h, part, rest);
    assert forall i | 0 <= i < n :: h[i] == part[i] && part[i] in part;
    assert forall i | 0 <= i < |rest| :: rest[i] == h[n + 1 + i];
  }

  lemma JoinIsShort(h: seq<u8>, part: seq<u8>, rest: seq<u8>)
    requires h == part + [DOT] + rest && |part| < 64 && ShortLabels(rest)
    ensures ShortLabels(h)
  {
    var n := |part|;
    forall i: nat | i + 64 <= |h|
      ensures DotWithin(h, i, 64)
    {
      if i <= n {
        assert i <= n < i + 64 && h[n] == DOT;
      } else {
        assert DotWithin(rest, i - n - 1, 64);
        var j :| i - n - 1 <= j < i - n - 1 + 64 && j < |rest| && rest[j] == DOT;
        assert h[j + n + 1] == DOT;
      }
    }
  }

  lemma JoinHasEdges(h: seq<u8>, part: seq<u8>, rest: seq<u8>)
    requires h == part + [DOT] + rest && DOT !in part && HostEdges(rest)
    requires part != [] && LetterOrDigit(part[0]) && LetterOrDigit(part[|part| - 1])
    ensures HostEdges(h)
  {
    var n := |part|;
    assert h[0] == part[0] && h[|h| - 1] == rest[|rest| - 1];
    assert forall i | 0 <= i < n :: h[i] == part[i] && part[i] in part;
    forall i | 0 < i < |h| - 1 && h[i] == DOT
      ensures LetterOrDigit(h[i - 1]) && LetterOrDigit(h[i + 1])
    {
      assert i >= n;
      if i == n {
        assert h[n - 1] == part[n - 1] && h[n + 1] == rest[0];
      } else {
        var k := i - n - 1;
        assert rest[k] == h[i] && k > 0;
        assert h[i - 1] == rest[k - 1] && h[i + 1] == rest[k + 1];
      }
    }
  }

  lemma JoinIsSpelled(h: seq<u8>, part: seq<u8>, rest: seq<u8>)
    requires DOT !in part && h == part + [DOT] + rest && LabelError(part).None? && WellSpelled(rest)
    ensures WellSpelled(h)
  {
    hide ShortLabels, HostEdges;
    JoinIsShort(h, part, rest);
    JoinHasEdges(h, part, rest);
  }

  lemma {:induction false} SpelledExactly(h: seq<u8>)
    ensures FirstError(Split(h)).None? <==> WellSpelled(h)
    decreases |h|
  {
    hide WellSpelled, LabelError;
    var dot := FindDot(h, 0);
    var part := h[..dot];
    assert DOT !in part;
    if dot < |h| {
      var rest := h[dot + 1..];
      SpelledExactly(rest);
      assert h == part + [DOT] + rest;
      LabelThenRest(part, rest);
      assert Split(h)[1..] == Split(rest);
    } else {
      assert part == h;
      LoneLabel(h);
      assert Split(h)[1..] == [];
    }
  }

  /** Which names are accepted, as a matter of their characters alone. */
  lemma AcceptedNames(host: seq<u8>)
    ensures Normalized(host).Ok? <==> |host| <= 253 && WellSpelled(host)
  {
    hide Split, FirstError;
    SpelledExactly(host);
  }

  // ---------------------------------------------------------------- records

  predicate WritableRecord(r: Record) { Serializable(r.name) && |r.rdata| < 0x1_0000 }

  function NameBytes(host: seq<u8>): seq<u8>
    requires Serializable(host)
  {
    SerializableLabels(host);
    EncodeLabels(Split(host)) + [0]
  }

  function FixedBytes(r: Record): (b: seq<u8>)
    requires |r.rdata| < 0x1_0000
    ensures |b| == FIXED_FIELDS
  {
    Encode16(r.kind) + Encode16(r.class_) + Encode32(r.ttl) + Encode16(|r.rdata|)
  }

  function RecordBytes(r: Record): seq<u8>
    requires WritableRecord(r)
  {
    NameBytes(r.name) + FixedBytes(r) + r.rdata
  }

  lemma NameDecodes(packet: seq<u8>, at: nat, host: seq<u8>, rest: seq<u8>)
    requires Serializable(host) && at <= |packet| && packet[at..] == NameBytes(host) + rest
    ensures Decoded(packet, at) == Some(Name(host, |host| + 2)) && |NameBytes(host)| == |host| + 2
  {
    hide Split, EncodeLabels, Decoded;
    SerializableLabels(host);
    EncodedLength(host);
    EncodedRoundTrip(packet, at, host, Split(host), rest);
  }

  lemma FixedDecodes(packet: seq<u8>, at: nat, r: Record, rest: seq<u8>)
    requires |r.rdata| < 0x1_0000 && at <= |packet| && packet[at..] == FixedBytes(r) + rest
    ensures at + 10 <= |packet| && Read16(packet, at) == r.kind && Read16(packet, at + 2) == r.class_
            && Read32(packet, at + 4) == r.ttl && Read16(packet, at + 8) == |r.rdata|
  {
    hide Encode16, Encode32, Read16, Read32;
    var b := FixedBytes(r);
    assert packet[at..at + 10] == b;
    assert packet[at..at + 2] == b[0..2] == Encode16(r.kind);
    assert packet[at + 2..at + 4] == b[2..4] == Encode16(r.class_);
    assert packet[at + 4..at + 8] == b[4..8] == Encode32(r.ttl);
    assert packet[at + 8..at + 10] == b[8..10] == Encode16(|r.rdata|);
    Read16Encoded(packet, at, r.kind);
    Read16Encoded(packet, at + 2, r.class_);
    Read32Encoded(packet, at + 4, r.ttl);
    Read16Encoded(packet, at + 8, |r.rdata|);
  }

  /** A written record is read back, whatever surrounds it. */
  lemma RecordRoundTrip(packet: seq<u8>, at: nat, r: Record, rest: seq<u8>)
    requires WritableRecord(r) && at <= |packet| && packet[at..] == RecordBytes(r) + rest
    ensures RecordAt(packet, at) == Some((r, at + |RecordBytes(r)|)) && packet[at + |RecordBytes(r)|..] == rest
  {
    hide Decoded, NameBytes, FixedBytes, Read16, Read32, Serializable;
    var name, fixed := NameBytes(r.name), FixedBytes(r);
    var behind := fixed + r.rdata + rest;
    assert packet[at..] == name + behind;
    NameDecodes(packet, at, r.name, behind);
    var cursor := at + |name|;
    assert packet[cursor..] == behind == fixed + (r.rdata + rest);
    FixedDecodes(packet, cursor, r, r.rdata + rest);
    var data := cursor + FIXED_FIELDS;
    assert packet[data..] == r.rdata + rest;
    assert packet[data..data + |r.rdata|] == r.rdata;
  }

  function AllBytes(rs: seq<Record>): seq<u8>
    requires forall r | r in rs :: WritableRecord(r)
  {
    if rs == [] then [] else RecordBytes(rs[0]) + AllBytes(rs[1..])
  }

  lemma {:induction false} RecordsRoundTrip(packet: seq<u8>, at: nat, rs: seq<Record>, rest: seq<u8>)
    requires (forall r | r in rs :: WritableRecord(r)) && at <= |packet| && packet[at..] == AllBytes(rs) + rest
    ensures Records(packet, at, |rs|) == Some(rs)
    decreases |rs|
  {
    hide RecordAt, RecordBytes, WritableRecord;
    if rs != [] {
      var behind := AllBytes(rs[1..]) + rest;
      assert packet[at..] == RecordBytes(rs[0]) + behind;
      RecordRoundTrip(packet, at, rs[0], behind);
      RecordsRoundTrip(packet, at + |RecordBytes(rs[0])|, rs[1..], rest);
      assert [rs[0]] + rs[1..] == rs;
    }
  }

  // ---------------------------------------------------------------- responses

  /** What a server writes: identifier, truncation, response code, the question, and the sections of records. */
  datatype Reply = Reply(id: u16, tc: bool, rcode: nat, host: seq<u8>, answers: seq<Record>, others: seq<Record>)

  ghost predicate Sendable(r: Reply) {
    && r.rcode < 16 && Serializable(r.host) && |r.answers| + |r.others| <= MAX_RECORDS
    && forall x | x in r.answers + r.others :: WritableRecord(x)
  }

  function ReplyHeader(r: Reply): (h: seq<u8>)
    requires r.rcode < 16 && |r.answers| < 0x1_0000 && |r.others| < 0x1_0000
    ensures |h| == HEADER_SIZE
  {
    Encode16(r.id) + [if r.tc then 0x82 else 0x80, r.rcode] + Encode16(1) + Encode16(|r.answers|) + Encode16(|r.others|)
    + Encode16(0)
  }

  ghost function ReplyBytes(r: Reply): seq<u8>
    requires Sendable(r)
  {
    ReplyHeader(r) + NameBytes(r.host) + (Encode16(1) + Encode16(1)) + AllBytes(r.answers + r.others)
  }

  lemma HeaderDecodes(packet: seq<u8>, r: Reply)
    requires r.rcode < 16 && |r.answers| < 0x1_0000 && |r.others| < 0x1_0000
    requires |packet| >= HEADER_SIZE && packet[..HEADER_SIZE] == ReplyHeader(r)
    ensures HeaderOf(packet) == Header(r.id, true, 0, r.tc, r.rcode, 1, |r.answers|, |r.others|)
  {
    hide Encode16, Read16;
    var h := ReplyHeader(r);
    assert packet[0..2] == h[0..2] == Encode16(r.id);
    assert packet[2] == h[2] && packet[3] == h[3];
    assert packet[4..6] == h[4..6] == Encode16(1);
    assert packet[6..8] == h[6..8] == Encode16(|r.answers|);
    assert packet[8..10] == h[8..10] == Encode16(|r.others|);
    assert packet[10..12] == h[10..12] == Encode16(0);
    Read16Encoded(packet, 0, r.id);
    Read16Encoded(packet, 4, 1);
    Read16Encoded(packet, 6, |r.answers|);
    Read16Encoded(packet, 8, |r.others|);
    Read16Encoded(packet, 10, 0);
  }

  /** The address of the first matching record, if there is one. */
  ghost predicate HasAnswer(r: Reply, a: seq<u8>) {
    exists i: nat | i < |r.answers| ::
      && IsAddressOf(r.answers[i], r.host) && r.answers[i].rdata == a
      && forall j: nat | j < i :: !IsAddressOf(r.answers[j], r.host)
  }

  /** An A record of class IN. */
  predicate IsAddressOf(r: Record, host: seq<u8>) { r.name == host && r.kind == 1 && r.class_ == 1 && |r.rdata| == 4 }

  /** The verdict on every response a server can write, for the query with this identifier and host. */
  lemma ReplyVerdict(r: Reply, id: u16, host: seq<u8>)
    requires Sendable(r) && |ReplyBytes(r)| <= 512
    ensures var o := Response(ReplyBytes(r), id, host);
            if r.id != id then o == WrongTransaction
            else if r.host != host then o == WrongQuestion
            else if r.tc then o == Truncated
            else if r.rcode == 3 then o == NxDomain
            else if r.rcode == 5 then o == Refused
            else if r.rcode == 2 then o == ServerFailure
            else if r.rcode != 0 then o == Malformed
            else if o.Resolved? then HasAnswer(r, o.address)
            else o == NoAnswer && forall a :: !HasAnswer(r, a)
  {
    hide Decoded, NameBytes, Read16, Records, RecordAt, AllBytes, Encode16, FirstMatch, ReplyHeader, Serializable,
         WritableRecord, HeaderOf;
    var packet := ReplyBytes(r);
    var rs := r.answers + r.others;
    var behind := (Encode16(1) + Encode16(1)) + AllBytes(rs);
    assert packet[..HEADER_SIZE] == ReplyHeader(r);
    HeaderDecodes(packet, r);
    assert packet[HEADER_SIZE..] == NameBytes(r.host) + behind;
    NameDecodes(packet, HEADER_SIZE, r.host, behind);
    var cursor := HEADER_SIZE + |r.host| + 2;
    assert packet[cursor..] == behind;
    assert packet[cursor..cursor + 2] == Encode16(1) && packet[cursor + 2..cursor + 4] == Encode16(1);
    Read16Encoded(packet, cursor, 1);
    Read16Encoded(packet, cursor + 2, 1);
    assert packet[cursor + 4..] == AllBytes(rs) + [];
    RecordsRoundTrip(packet, cursor + 4, rs, []);
    assert rs[..|r.answers|] == r.answers;
    FirstAnswer(r);
  }

  lemma FirstAnswer(r: Reply)
    ensures var found := FirstMatch(r.answers, r.host);
            (found.Some? ==> HasAnswer(r, found.value)) && (found.None? ==> forall a :: !HasAnswer(r, a))
  {
    hide FirstMatch;
    forall a: seq<u8>
      ensures FirstMatch(r.answers, r.host) == Some(a) <==> HasAnswer(r, a)
    {
      FirstMatchMeans(r.answers, r.host, a);
    }
  }
}
