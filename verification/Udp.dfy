/** UDP datagrams: the length field, the pseudo-header checksum and its two special values. */
module Udp {
  import opened Primitives
  import opened BigEndian
  import opened Checksums
  import opened TcpSegments

  const HEADER_SIZE: nat := 8
  const MAX_LENGTH: nat := 65535
  const PROTOCOL_UDP: u8 := 17

  datatype Datagram = Datagram(sourcePort: u16, destinationPort: u16, payload: seq<u8>)

  datatype UdpParseError = TooShort | InvalidLength | BadChecksum

  datatype UdpSerializeError = PayloadTooLarge

  function DatagramChecksum(source: Address, destination: Address, bytes: seq<u8>): u16
    requires |bytes| <= MAX_LENGTH
  {
    Checksum(PseudoHeader(source, destination, PROTOCOL_UDP, |bytes|) + bytes)
  }

  function ParseDatagram(bytes: seq<u8>, source: Address, destination: Address): Result<Datagram, UdpParseError> {
    if |bytes| < HEADER_SIZE then Err(UdpParseError.TooShort)
    else
      var length := Read16(bytes, 4);
      if length < HEADER_SIZE || length > |bytes| then Err(InvalidLength)
      else if Read16(bytes, 6) != 0 && DatagramChecksum(source, destination, bytes[..length]) != 0 then
        Err(UdpParseError.BadChecksum)
      else Ok(Datagram(Read16(bytes, 0), Read16(bytes, 2), bytes[HEADER_SIZE..length]))
  }

  /** The whole datagram with `checksum` in its field. */
  function Layout(d: Datagram, checksum: u16): (b: seq<u8>)
    requires HEADER_SIZE + |d.payload| <= MAX_LENGTH
    ensures |b| == HEADER_SIZE + |d.payload|
  {
    Encode16(d.sourcePort) + Encode16(d.destinationPort) + Encode16(HEADER_SIZE + |d.payload|) + Encode16(checksum)
      + d.payload
  }

  /** A computed zero is sent as all ones, which a receiver cannot take for "no checksum". */
  function SentChecksum(c: u16): u16 { if c == 0 then 0xffff else c }

  function SerializeDatagram(d: Datagram, source: Address, destination: Address): Result<seq<u8>, UdpSerializeError> {
    if HEADER_SIZE + |d.payload| > MAX_LENGTH then Err(UdpSerializeError.PayloadTooLarge)
    else Ok(Layout(d, SentChecksum(DatagramChecksum(source, destination, Layout(d, 0)))))
  }

  // ---------------------------------------------------------------- the loops of the source

  method UdpChecksum(source: Address, destination: Address, bytes: seq<u8>) returns (c: u16)
    requires |bytes| <= MAX_LENGTH
    ensures c == DatagramChecksum(source, destination, bytes)
  {
    var buffer := source;
    buffer := buffer + destination;
    buffer := buffer + [0] + [PROTOCOL_UDP];
    buffer := buffer + Encode16(|bytes|);
    assert buffer == PseudoHeader(source, destination, PROTOCOL_UDP, |bytes|);
    buffer := buffer + bytes;
    c := InternetChecksum(buffer);
  }

  /** Field by field into one growing buffer, the checksum patched in at the end. */
  method SerializeUdpDatagram(d: Datagram, source: Address, destination: Address)
    returns (r: Result<seq<u8>, UdpSerializeError>)
    ensures r == SerializeDatagram(d, source, destination)
  {
    var total := HEADER_SIZE + |d.payload|;
    if total > MAX_LENGTH {
      return Err(UdpSerializeError.PayloadTooLarge);
    }
    var out := Encode16(d.sourcePort);
    out := out + Encode16(d.destinationPort);
    out := out + Encode16(total);
    out := out + Encode16(0);
    out := out + d.payload;
    assert out == Layout(d, 0);
    var checksum: u16 := UdpChecksum(source, destination, out);
    if checksum == 0 {
      checksum := 0xffff;
    }
    out := out[6 := checksum / 0x100];
    out := out[7 := checksum % 0x100];
    assert out == Layout(d, checksum);
    r := Ok(out);
  }

  // ---------------------------------------------------------------- round trips

  lemma LayoutFields(d: Datagram, c: u16, padding: seq<u8>)
    requires HEADER_SIZE + |d.payload| <= MAX_LENGTH
    ensures var b := Layout(d, c) + padding;
            && Read16(b, 0) == d.sourcePort && Read16(b, 2) == d.destinationPort
            && Read16(b, 4) == HEADER_SIZE + |d.payload| && Read16(b, 6) == c
            && b[..HEADER_SIZE + |d.payload|] == Layout(d, c) && b[HEADER_SIZE..HEADER_SIZE + |d.payload|] == d.payload
  {
    var b := Layout(d, c) + padding;
    assert b[0..2] == Encode16(d.sourcePort) && b[2..4] == Encode16(d.destinationPort);
    assert b[4..6] == Encode16(HEADER_SIZE + |d.payload|) && b[6..8] == Encode16(c);
    Read16Encoded(b, 0, d.sourcePort);
    Read16Encoded(b, 2, d.destinationPort);
    Read16Encoded(b, 4, HEADER_SIZE + |d.payload|);
    Read16Encoded(b, 6, c);
  }

  lemma PatchedLayout(d: Datagram, source: Address, destination: Address, f: u16)
    requires HEADER_SIZE + |d.payload| <= MAX_LENGTH
    ensures var h := PseudoHeader(source, destination, PROTOCOL_UDP, HEADER_SIZE + |d.payload|);
            && Read16(h + Layout(d, 0), 18) == 0 && Patched(h + Layout(d, 0), 18, f) == h + Layout(d, f)
            && WordSum(h + Layout(d, 0)) > 0
  {
    var h := PseudoHeader(source, destination, PROTOCOL_UDP, HEADER_SIZE + |d.payload|);
    var zeroed := h + Layout(d, 0);
    assert zeroed[18..20] == Encode16(0);
    Read16Encoded(zeroed, 18, 0);
    WordSumConcat(h, Layout(d, 0));
    WordSumConcat(source + destination + [0, PROTOCOL_UDP], Encode16(HEADER_SIZE + |d.payload|));
    WordSumConcat(source + destination, [0, PROTOCOL_UDP]);
  }

  /** Every datagram that serializes is parsed back, whatever the addresses and whatever padding follows. */
  lemma SerializeParseDatagram(d: Datagram, source: Address, destination: Address, padding: seq<u8>)
    requires SerializeDatagram(d, source, destination).Ok?
    ensures ParseDatagram(SerializeDatagram(d, source, destination).value + padding, source, destination) == Ok(d)
    ensures Read16(SerializeDatagram(d, source, destination).value, 6) != 0
  {
    hide Checksum, PseudoHeader, Layout;
    var c := SentChecksum(DatagramChecksum(source, destination, Layout(d, 0)));
    LayoutFields(d, c, padding);
    LayoutFields(d, c, []);
    assert Layout(d, c) + [] == Layout(d, c);
    PatchedLayout(d, source, destination, c);
    PatchedVerifies(PseudoHeader(source, destination, PROTOCOL_UDP, HEADER_SIZE + |d.payload|) + Layout(d, 0), 18, c);
  }

  lemma ParsedLayout(bytes: seq<u8>, source: Address, destination: Address)
    requires ParseDatagram(bytes, source, destination).Ok?
    ensures var d := ParseDatagram(bytes, source, destination).value;
            HEADER_SIZE + |d.payload| == Read16(bytes, 4) <= |bytes|
            && bytes[..Read16(bytes, 4)] == Layout(d, Read16(bytes, 6))
  {
    hide DatagramChecksum;
    var n := Read16(bytes, 4);
    Read16Encode(bytes, 0);
    Read16Encode(bytes, 2);
    Read16Encode(bytes, 4);
    Read16Encode(bytes, 6);
    assert bytes[..n] == bytes[0..2] + bytes[2..4] + bytes[4..6] + bytes[6..8] + bytes[8..n];
  }

  /** A received datagram re-serializes to its own bytes exactly when it carried a checksum. */
  lemma ParseSerializeDatagram(bytes: seq<u8>, source: Address, destination: Address)
    requires ParseDatagram(bytes, source, destination).Ok?
    ensures SerializeDatagram(ParseDatagram(bytes, source, destination).value, source, destination)
            == Ok(bytes[..Read16(bytes, 4)])
            <==> Read16(bytes, 6) != 0
  {
    hide Checksum, PseudoHeader, Layout;
    var d := ParseDatagram(bytes, source, destination).value;
    var f := Read16(bytes, 6);
    var c := SentChecksum(DatagramChecksum(source, destination, Layout(d, 0)));
    ParsedLayout(bytes, source, destination);
    LayoutFields(d, c, []);
    LayoutFields(d, f, []);
    assert Layout(d, c) + [] == Layout(d, c) && Layout(d, f) + [] == Layout(d, f);
    if f != 0 {
      FieldIsSent(d, source, destination, f);
    }
  }

  /** An accepted datagram without a checksum, which serialization would add. */
  lemma NotEveryDatagramReturns(source: Address, destination: Address)
    ensures var bytes := [0, 1, 0, 2, 0, 8, 0, 0];
            && ParseDatagram(bytes, source, destination) == Ok(Datagram(1, 2, []))
            && SerializeDatagram(Datagram(1, 2, []), source, destination) != Ok(bytes)
  {
    var bytes: seq<u8> := [0, 1, 0, 2, 0, 8, 0, 0];
    ParseSerializeDatagram(bytes, source, destination);
    assert bytes[..8] == bytes;
  }

  lemma FieldIsSent(d: Datagram, source: Address, destination: Address, f: u16)
    requires HEADER_SIZE + |d.payload| <= MAX_LENGTH && f != 0
    requires DatagramChecksum(source, destination, Layout(d, f)) == 0
    ensures f == SentChecksum(DatagramChecksum(source, destination, Layout(d, 0)))
  {
    hide PseudoHeader, Layout;
    var zeroed := PseudoHeader(source, destination, PROTOCOL_UDP, HEADER_SIZE + |d.payload|) + Layout(d, 0);
    PatchedLayout(d, source, destination, f);
    WordSumPatched(zeroed, 18, f);
    if f != 0xffff {
      ComplementIsUnique(WordSum(zeroed), f);
    } else {
      OnesChangeNothing(WordSum(zeroed));
    }
  }

  lemma OnesChangeNothing(s: nat)
    requires s > 0
    ensures Folded(s + 65535) == Folded(s)
  {
    ModShift(s, 1);
  }
}
