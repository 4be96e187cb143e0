/** DNS queries and responses: one question for an A record, and the answer to it. */
module DnsMessages {
  import opened Primitives
  import opened BigEndian
  import opened DnsNames

  const HEADER_SIZE: nat := 12
  const MAX_MESSAGE: nat := 512
  const MAX_RECORDS: nat := 64
  const FIXED_FIELDS: nat := 10

  // ---------------------------------------------------------------- queries

  function QueryHeader(id: u16): (h: seq<u8>)
    ensures |h| == HEADER_SIZE
  {
    Encode16(id) + [1, 0] + Encode16(1) + Encode16(0) + Encode16(0) + Encode16(0)
  }

  predicate Serializable(host: seq<u8>) { Normalized(host) == Ok(host) }

  lemma SerializableLabels(host: seq<u8>)
    requires Serializable(host)
    ensures forall l | l in Split(host) :: |l| <= MAX_LABEL
  {
    ValidLabels(Split(host));
  }

  function Query(id: u16, host: seq<u8>): seq<u8>
    requires Serializable(host)
  {
    SerializableLabels(host);
    QueryHeader(id) + EncodeLabels(Split(host)) + [0] + (Encode16(1) + Encode16(1))
  }

  /** The length is |host| + 18, so the size limit of the source is never reached. */
  lemma QueryFits(id: u16, host: seq<u8>)
    requires Serializable(host)
    ensures |Query(id, host)| == |host| + 18 <= MAX_MESSAGE
  {
    SerializableLabels(host);
    EncodedLength(host);
  }

  /** The labels encoded from `from` on. */
  lemma EncodeFrom(host: seq<u8>, from: nat)
    requires from <= |host| && forall l | l in Split(host[from..]) :: |l| <= MAX_LABEL
    ensures var dot := FindDot(host, from);
            && |host[from..dot]| <= MAX_LABEL
            && (dot < |host| ==> forall l | l in Split(host[dot + 1..]) :: |l| <= MAX_LABEL)
            && EncodeLabels(Split(host[from..])) ==
               [|host[from..dot]|] + host[from..dot]
                 + (if dot == |host| then [] else EncodeLabels(Split(host[dot + 1..])))
  {
    hide Split, FindDot;
    SplitFrom(host, from);
    var dot := FindDot(host, from);
    var labels := Split(host[from..]);
    if dot == |host| {
      assert host[from..] == host[from..dot];
      assert labels[1..] == [];
    } else {
      assert labels[1..] == Split(host[dot + 1..]);
      assert labels[0] == host[from..dot];
      assert forall l | l in labels[1..] :: l in labels;
    }
  }

  /** The label loop of `serializeDnsQuery`. */
  method EncodeHost(host: seq<u8>) returns (out: seq<u8>)
    requires forall l | l in Split(host) :: |l| <= MAX_LABEL
    ensures out == EncodeLabels(Split(host))
  {
    hide Split, FindDot, EncodeLabels;
    out := [];
    var labelStart: nat := 0;
    ghost var whole := EncodeLabels(Split(host));
    assert host[0..] == host;
    assert [] + whole == whole;
    while true
      invariant labelStart <= |host| && forall l | l in Split(host[labelStart..]) :: |l| <= MAX_LABEL
      invariant whole == out + EncodeLabels(Split(host[labelStart..]))
      decreases |host| - labelStart
    {
      EncodeFrom(host, labelStart);
      var dot := FindDot(host, labelStart);
      var part := host[labelStart..dot];
      ghost var rest := if dot == |host| then [] else EncodeLabels(Split(host[dot + 1..]));
      Associate(out, [|part|] + part, rest);
      Associate(out, [|part|], part);
      out := out + [|part|] + part;
      if dot == |host| {
        assert out + [] == out;
        break;
      }
      labelStart := dot + 1;
    }
  }

  lemma Associate(a: seq<u8>, b: seq<u8>, c: seq<u8>)
    ensures a + (b + c) == a + b + c
  {
  }

  /** `serializeDnsQuery`. */
  method SerializeDnsQuery(id: u16, host: seq<u8>) returns (r: Option<seq<u8>>)
    ensures r == if Serializable(host) then Some(Query(id, host)) else None
  {
    hide Split, Normalized, EncodeLabels, Encode16;
    var normalized := NormalizeHostname(host);
    if normalized != Ok(host) {
      return None;
    }
    SerializableLabels(host);
    var out := QueryHeader(id);
    var name := EncodeHost(host);
    out := out + name;
    out := out + [0];
    Associate(out, Encode16(1), Encode16(1));
    out := out + Encode16(1);
    out := out + Encode16(1);
    if |out| > MAX_MESSAGE {
      // The size check of the source: `QueryFits` rules it out.
      QueryFits(id, host);
      assert false;
    }
    r := Some(out);
  }

  /** The question of a query is decoded to its own host name, in |host| + 2 bytes. */
  lemma QueryRoundTrip(id: u16, host: seq<u8>)
    requires Serializable(host)
    ensures Decoded(Query(id, host), HEADER_SIZE) == Some(Name(host, |host| + 2))
    ensures Read16(Query(id, host), 0) == id
  {
    hide Split, EncodeLabels, Decoded;
    SerializableLabels(host);
    var q := Query(id, host);
    var tail := Encode16(1) + Encode16(1);
    assert q[HEADER_SIZE..] == EncodeLabels(Split(host)) + [0] + tail;
    EncodedRoundTrip(q, HEADER_SIZE, host, Split(host), tail);
    assert q[0..2] == Encode16(id);
    Read16Encoded(q, 0, id);
  }

  // ---------------------------------------------------------------- resource records

  datatype Record = Record(name: seq<u8>, kind: u16, class_: u16, ttl: u32, rdata: seq<u8>)

  /** One record and the offset of the byte after it. */
  function RecordAt(packet: seq<u8>, offset: nat): (r: Option<(Record, nat)>)
    ensures r.Some? ==> offset < r.value.1 <= |packet|
  {
    var name := Decoded(packet, offset);
    if name.None? then None
    else
      DecodedBounds(packet, offset);
      var cursor := offset + name.value.length;
      if cursor + FIXED_FIELDS > |packet| then None
      else
        var data := cursor + FIXED_FIELDS;
        var length := Read16(packet, cursor + 8);
        if data + length > |packet| then None
        else Some((Record(name.value.text, Read16(packet, cursor), Read16(packet, cursor + 2),
                          Read32(packet, cursor + 4),
                          packet[data..data + length]),
                   data + length))
  }

  /** `decodeResourceRecord`. */
  method DecodeResourceRecord(packet: seq<u8>, offset: nat) returns (r: Option<(Record, nat)>)
    ensures r == RecordAt(packet, offset)
  {
    hide Decoded, Read16, Read32;
    var name := DecodeName(packet, offset);
    if name.None? {
      return None;
    }
    var cursor := offset + name.value.length;
    if cursor + FIXED_FIELDS > |packet| {
      return None;
    }
    var length := Read16(packet, cursor + 8);
    var data := cursor + FIXED_FIELDS;
    if data + length > |packet| {
      return None;
    }
    r := Some((Record(name.value.text, Read16(packet, cursor), Read16(packet, cursor + 2), Read32(packet, cursor + 4),
                      packet[data..data + length]),
               data + length));
  }

  /** The next `n` records, if all of them decode. */
  function Records(packet: seq<u8>, cursor: nat, n: nat): (rs: Option<seq<Record>>)
    ensures rs.Some? ==> |rs.value| == n
    decreases n
  {
    if n == 0 then Some([])
    else
      var first := RecordAt(packet, cursor);
      if first.None? then None
      else
        var rest := Records(packet, first.value.1, n - 1);
        if rest.None? then None else Some([first.value.0] + rest.value)
  }

  // ---------------------------------------------------------------- responses

  datatype Outcome =
    | Resolved(address: seq<u8>) | NoAnswer | NxDomain | Refused | ServerFailure | Truncated
    | WrongTransaction | WrongQuestion | Malformed

  /** An A record of class IN for the name, with a four-byte address. */
  predicate Matches(r: Record, host: seq<u8>) { r.kind == 1 && r.class_ == 1 && |r.rdata| == 4 && r.name == host }

  function FirstMatch(rs: seq<Record>, host: seq<u8>): Option<seq<u8>> {
    if rs == [] then None else if Matches(rs[0], host) then Some(rs[0].rdata) else FirstMatch(rs[1..], host)
  }

  datatype Header = Header(id: u16, qr: bool, opcode: nat, tc: bool, rcode: nat, questions: nat, answers: nat,
                           others: nat)

  function HeaderOf(packet: seq<u8>): Header
    requires |packet| >= HEADER_SIZE
  {
    Header(Read16(packet, 0), packet[2] >= 128, packet[2] as int / 8 % 16, packet[2] as int / 2 % 2 == 1,
           packet[3] as int % 16,
           Read16(packet, 4), Read16(packet, 6), Read16(packet, 8) as int + Read16(packet, 10))
  }

  /** What the header and the question decide; `None` when the records are to be read. */
  function Verdict(h: Header, question: seq<u8>, kind: u16, class_: u16, id: u16, host: seq<u8>): Option<Outcome> {
    if h.id != id then Some(WrongTransaction)
    else if question != host || kind != 1 || class_ != 1 then Some(WrongQuestion)
    else if h.tc then Some(Truncated)
    else if h.rcode == 3 then Some(NxDomain)
    else if h.rcode == 5 then Some(Refused)
    else if h.rcode == 2 then Some(ServerFailure)
    else if h.rcode != 0 then Some(Malformed)
    else None
  }

  /** The outcome of the records behind the question. */
  function Answer(packet: seq<u8>, cursor: nat, answers: nat, others: nat, host: seq<u8>): Outcome {
    var all := Records(packet, cursor, answers + others);
    if all.None? then Malformed
    else
      var found := FirstMatch(all.value[..answers], host);
      if found.Some? then Resolved(found.value) else NoAnswer
  }

  function Response(packet: seq<u8>, id: u16, host: seq<u8>): Outcome {
    if |packet| < HEADER_SIZE || |packet| > MAX_MESSAGE then Malformed
    else
      var h := HeaderOf(packet);
      if !h.qr || h.opcode != 0 || h.questions != 1 || h.answers + h.others > MAX_RECORDS then Malformed
      else
        var question := Decoded(packet, HEADER_SIZE);
        if question.None? then Malformed
        else
          var cursor := HEADER_SIZE + question.value.length;
          if cursor + 4 > |packet| then Malformed
          else
            var verdict := Verdict(h, question.value.text, Read16(packet, cursor), Read16(packet, cursor + 2), id,
                                   host);
            if verdict.Some? then verdict.value else Answer(packet, cursor + 4, h.answers, h.others, host)
  }

  function Prepend(done: seq<Record>, rest: Option<seq<Record>>): Option<seq<Record>> {
    if rest.None? then None else Some(done + rest.value)
  }

  /** One more record read: the whole list is unchanged, seen from the next cursor. */
  lemma NextRecord(packet: seq<u8>, cursor: nat, done: seq<Record>, left: nat)
    requires left > 0
    ensures var rr := RecordAt(packet, cursor);
            Prepend(done, Records(packet, cursor, left)) ==
            if rr.None? then None else Prepend(done + [rr.value.0], Records(packet, rr.value.1, left - 1))
  {
    hide RecordAt;
    var rr := RecordAt(packet, cursor);
    if rr.Some? {
      var rest := Records(packet, rr.value.1, left - 1);
      if rest.Some? {
        assert done + ([rr.value.0] + rest.value) == done + [rr.value.0] + rest.value;
      }
    }
  }

  lemma {:induction false} LastMatch(rs: seq<Record>, r: Record, host: seq<u8>)
    ensures FirstMatch(rs + [r], host)
         == if FirstMatch(rs, host).Some? then FirstMatch(rs, host) else if Matches(r, host) then Some(r.rdata)
           else None
    decreases |rs|
  {
    if rs == [] {
      assert rs + [r] == [r] && [r][1..] == [];
    } else {
      assert (rs + [r])[1..] == rs[1..] + [r];
      LastMatch(rs[1..], r, host);
    }
  }

  /** The two record loops of `parseDnsResponse`. */
  method ReadRecords(packet: seq<u8>, start: nat, answers: nat, others: nat, host: seq<u8>) returns (o: Outcome)
    ensures o == Answer(packet, start, answers, others, host)
  {
    hide RecordAt, Matches, FirstMatch, Records;
    var found: Option<seq<u8>> := None;
    var cursor: nat := start;
    ghost var done: seq<Record> := [];
    ghost var all := Records(packet, start, answers + others);
    assert all == Prepend(done, Records(packet, cursor, answers + others)) by {
      if all.Some? {
        assert [] + all.value == all.value;
      }
    }
    assert found == FirstMatch(done, host) by { NoMatchYet(host); }
    for i := 0 to answers
      invariant |done| == i && all == Prepend(done, Records(packet, cursor, answers + others - i))
      invariant found == FirstMatch(done, host)
    {
      var rr := DecodeResourceRecord(packet, cursor);
      NextRecord(packet, cursor, done, answers + others - i);
      if rr.None? {
        return Malformed;
      }
      cursor := rr.value.1;
      LastMatch(done, rr.value.0, host);
      if found.None? && Matches(rr.value.0, host) {
        found := Some(rr.value.0.rdata);
      }
      done := done + [rr.value.0];
    }
    ghost var section := done;
    for i := 0 to others
      invariant |done| == answers + i && section == done[..answers]
      invariant all == Prepend(done, Records(packet, cursor, others - i))
    {
      var rr := DecodeResourceRecord(packet, cursor);
      NextRecord(packet, cursor, done, others - i);
      if rr.None? {
        return Malformed;
      }
      cursor := rr.value.1;
      done := done + [rr.value.0];
    }
    assert all == Some(done) by { NothingLeft(packet, cursor, done); }
    o := if found.Some? then Resolved(found.value) else NoAnswer;
  }

  lemma NoMatchYet(host: seq<u8>)
    ensures FirstMatch([], host) == None
  {
  }

  lemma NothingLeft(packet: seq<u8>, cursor: nat, done: seq<Record>)
    ensures Prepend(done, Records(packet, cursor, 0)) == Some(done)
  {
    assert done + [] == done;
  }

  /** `parseDnsResponse`. */
  method ParseDnsResponse(packet: seq<u8>, id: u16, host: seq<u8>) returns (o: Outcome)
    ensures o == Response(packet, id, host)
  {
    hide Decoded, Answer, Read16;
    if |packet| < HEADER_SIZE || |packet| > MAX_MESSAGE {
      return Malformed;
    }
    var h := HeaderOf(packet);
    if !h.qr || h.opcode != 0 || h.questions != 1 || h.answers + h.others > MAX_RECORDS {
      return Malformed;
    }
    var question := DecodeName(packet, HEADER_SIZE);
    if question.None? {
      return Malformed;
    }
    var cursor := HEADER_SIZE + question.value.length;
    if cursor + 4 > |packet| {
      return Malformed;
    }
    var verdict := Verdict(h, question.value.text, Read16(packet, cursor), Read16(packet, cursor + 2), id, host);
    if verdict.Some? {
      return verdict.value;
    }
    o := ReadRecords(packet, cursor + 4, h.answers, h.others, host);
  }

  // ---------------------------------------------------------------- what a resolution means

  lemma {:induction false} FirstMatchMeans(rs: seq<Record>, host: seq<u8>, a: seq<u8>)
    ensures FirstMatch(rs, host) == Some(a) <==>
            exists i: nat | i < |rs| ::
              Matches(rs[i], host) && rs[i].rdata == a && forall j: nat | j < i :: !Matches(rs[j], host)
    decreases |rs|
  {
    hide Matches;
    if rs != [] {
      FirstMatchMeans(rs[1..], host, a);
      if exists i: nat | i < |rs| :: Matches(rs[i], host) && rs[i].rdata == a
           && forall j: nat | j < i :: !Matches(rs[j], host) {
        var i: nat :| i < |rs| && Matches(rs[i], host) && rs[i].rdata == a
                      && forall j: nat | j < i :: !Matches(rs[j], host);
        if i > 0 {
          assert !Matches(rs[0], host);
          assert rs[1..][i - 1] == rs[i];
          assert forall j: nat | j < i - 1 :: rs[1..][j] == rs[j + 1];
        }
      }
      if !Matches(rs[0], host) && FirstMatch(rs[1..], host) == Some(a) {
        var i: nat :| && i < |rs[1..]| && Matches(rs[1..][i], host) && rs[1..][i].rdata == a
                      && forall j: nat | j < i :: !Matches(rs[1..][j], host);
        assert rs[i + 1] == rs[1..][i];
        assert forall j: nat | j < i + 1 :: j > 0 ==> rs[j] == rs[1..][j - 1];
      }
    }
  }

  /** The first matching record of the answer section, in a message whose every record decodes. */
  ghost predicate IsFirstAnswer(rs: seq<Record>, answers: nat, host: seq<u8>, a: seq<u8>)
    requires answers <= |rs|
  {
    exists i: nat | i < answers ::
      Matches(rs[i], host) && rs[i].rdata == a && forall j: nat | j < i :: !Matches(rs[j], host)
  }

  /**
   The records resolve to an address exactly when every one of them is in order and the address is
   that of the first matching answer record; records of the other two sections never count.
   */
  lemma AnswerExactly(packet: seq<u8>, cursor: nat, answers: nat, others: nat, host: seq<u8>, a: seq<u8>)
    ensures Answer(packet, cursor, answers, others, host) == Resolved(a) <==>
            var all := Records(packet, cursor, answers + others);
            all.Some? && IsFirstAnswer(all.value, answers, host, a)
  {
    hide Records, Matches, FirstMatch;
    var all := Records(packet, cursor, answers + others);
    if all.Some? {
      FirstMatchMeans(all.value[..answers], host, a);
      if IsFirstAnswer(all.value, answers, host, a) {
        var i: nat :| && i < answers && Matches(all.value[i], host) && all.value[i].rdata == a
                      && forall j: nat | j < i :: !Matches(all.value[j], host);
        assert all.value[..answers][i] == all.value[i];
        assert forall j: nat | j < i :: all.value[..answers][j] == all.value[j];
      }
    }
  }

  /** The header is that of a good response to the query with this identifier. */
  predicate GoodHeader(packet: seq<u8>, id: u16)
    requires |packet| >= HEADER_SIZE
  {
    var h := HeaderOf(packet);
    && h.id == id && h.qr && h.opcode == 0 && !h.tc && h.rcode == 0
    && h.questions == 1 && h.answers + h.others <= MAX_RECORDS
  }

  /** The one question is for the IPv4 address of the host. */
  predicate Asks(packet: seq<u8>, host: seq<u8>) {
    var question := Decoded(packet, HEADER_SIZE);
    && question.Some? && question.value.text == host
    && var cursor := HEADER_SIZE + question.value.length;
       cursor + 4 <= |packet| && Read16(packet, cursor) == 1 && Read16(packet, cursor + 2) == 1
  }

  /** Every record behind the question decodes, and the address is that of the first matching answer. */
  ghost predicate Answers(packet: seq<u8>, host: seq<u8>, a: seq<u8>)
    requires |packet| >= HEADER_SIZE && Asks(packet, host)
  {
    var h := HeaderOf(packet);
    var all := Records(packet, HEADER_SIZE + Decoded(packet, HEADER_SIZE).value.length + 4, h.answers + h.others);
    all.Some? && IsFirstAnswer(all.value, h.answers, host, a)
  }

  /** A response resolves to an address exactly when header, question and records all say so. */
  lemma ResolvedExactly(packet: seq<u8>, id: u16, host: seq<u8>, a: seq<u8>)
    ensures Response(packet, id, host) == Resolved(a) <==>
            && HEADER_SIZE <= |packet| <= MAX_MESSAGE && GoodHeader(packet, id) && Asks(packet, host)
            && Answers(packet, host, a)
  {
    hide Decoded, Records, Read16, Answer, IsFirstAnswer;
    if HEADER_SIZE <= |packet| && Decoded(packet, HEADER_SIZE).Some? {
      var h := HeaderOf(packet);
      AnswerExactly(packet, HEADER_SIZE + Decoded(packet, HEADER_SIZE).value.length + 4, h.answers, h.others, host, a);
    }
  }

  /** A resolved address has four bytes. */
  lemma ResolvedIsAddress(packet: seq<u8>, id: u16, host: seq<u8>)
    requires Response(packet, id, host).Resolved?
    ensures |Response(packet, id, host).address| == 4
  {
    hide Decoded, Records, Read16, Response;
    ResolvedExactly(packet, id, host, Response(packet, id, host).address);
  }
}
