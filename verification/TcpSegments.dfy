/** TCP segments on the wire: parsing, serialization and their round trips. */
module TcpSegments {
  import opened Primitives
  import opened BigEndian
  import opened Checksums

  const MIN_HEADER: nat := 20
  const MAX_SEGMENT_LENGTH: nat := 65535
  const MAX_OPTIONS: nat := 40

  datatype Flags = Flags(fin: bool, syn: bool, rst: bool, psh: bool, ack: bool, urg: bool, ece: bool, cwr: bool)

  const NO_FLAGS := Flags(false, false, false, false, false, false, false, false)

  datatype Segment = Segment(
    sourcePort: u16, destinationPort: u16, seqno: u32, ackno: u32, flags: Flags,
    window: u16, urgent: u16, options: seq<u8>, payload: seq<u8>)

  type Address = a: seq<u8> | |a| == 4 witness [0, 0, 0, 0]

  datatype ParseError = TooShort | TooLong | InvalidDataOffset | BadChecksum

  datatype SerializeError = UnalignedOptions | OptionsTooLong | PayloadTooLarge

  /** Bits, least significant first; the masks 0x01, 0x02, 0x04, ... in order. */
  function EncodeBits(bits: seq<bool>): nat {
    if bits == [] then 0 else (if bits[0] then 1 else 0) + 2 * EncodeBits(bits[1..])
  }

  function DecodeBits(n: nat, count: nat): (bits: seq<bool>)
    ensures |bits| == count
  {
    if count == 0 then [] else [n % 2 == 1] + DecodeBits(n / 2, count - 1)
  }

  lemma {:induction false} BitsEncodeDecode(bits: seq<bool>)
    ensures DecodeBits(EncodeBits(bits), |bits|) == bits
    decreases |bits|
  {
    if bits != [] {
      BitsEncodeDecode(bits[1..]);
    }
  }

  function Pow2(k: nat): nat { if k == 0 then 1 else 2 * Pow2(k - 1) }

  lemma {:induction false} BitsDecodeEncode(n: nat, count: nat)
    requires n < Pow2(count)
    ensures EncodeBits(DecodeBits(n, count)) == n
    decreases count
  {
    if count > 0 {
      BitsDecodeEncode(n / 2, count - 1);
      assert DecodeBits(n, count)[1..] == DecodeBits(n / 2, count - 1);
    }
  }

  lemma {:induction false} BitsBound(bits: seq<bool>)
    ensures EncodeBits(bits) < Pow2(|bits|)
    decreases |bits|
  {
    if bits != [] {
      BitsBound(bits[1..]);
    }
  }

  lemma Byte()
    ensures Pow2(8) == 256
  {
    assert Pow2(4) == 16;
  }

  function FlagBits(f: Flags): (bits: seq<bool>)
    ensures |bits| == 8
  {
    [f.fin, f.syn, f.rst, f.psh, f.ack, f.urg, f.ece, f.cwr]
  }

  function EncodeFlags(f: Flags): u8 {
    BitsBound(FlagBits(f));
    Byte();
    EncodeBits(FlagBits(f))
  }

  function DecodeFlags(b: u8): Flags {
    var bits := DecodeBits(b, 8);
    Flags(bits[0], bits[1], bits[2], bits[3], bits[4], bits[5], bits[6], bits[7])
  }

  lemma FlagsEncodeDecode(f: Flags)
    ensures DecodeFlags(EncodeFlags(f)) == f
  {
    BitsEncodeDecode(FlagBits(f));
  }

  lemma FlagsDecodeEncode(b: u8)
    ensures EncodeFlags(DecodeFlags(b)) == b
  {
    Byte();
    BitsDecodeEncode(b, 8);
    assert FlagBits(DecodeFlags(b)) == DecodeBits(b, 8);
  }

  function PseudoHeader(source: Address, destination: Address, protocol: u8, length: u16): (h: seq<u8>)
    ensures |h| == 12
  {
    source + destination + [0, protocol] + Encode16(length)
  }

  function SegmentChecksum(source: Address, destination: Address, bytes: seq<u8>): u16
    requires |bytes| <= MAX_SEGMENT_LENGTH
  {
    Checksum(PseudoHeader(source, destination, 6, |bytes|) + bytes)
  }

  function Parse(bytes: seq<u8>, source: Address, destination: Address): Result<Segment, ParseError> {
    if |bytes| < MIN_HEADER then Err(TooShort)
    else if |bytes| > MAX_SEGMENT_LENGTH then Err(TooLong)
    else
      var offset := bytes[12] / 16;
      var header := (offset as int) * 4;
      if offset < 5 || header > |bytes| then Err(InvalidDataOffset)
      else if SegmentChecksum(source, destination, bytes) != 0 then Err(BadChecksum)
      else Ok(Segment(
        Read16(bytes, 0), Read16(bytes, 2), Read32(bytes, 4), Read32(bytes, 8), DecodeFlags(bytes[13]),
        Read16(bytes, 14), Read16(bytes, 18), bytes[MIN_HEADER..header], bytes[header..]))
  }

  /** Header fields before the checksum. */
  function Front(s: Segment): (b: seq<u8>)
    requires |s.options| <= MAX_OPTIONS
    ensures |b| == 16
  {
    var (p, d, q, a, w) :=
      (Encode16(s.sourcePort), Encode16(s.destinationPort), Encode32(s.seqno), Encode32(s.ackno), Encode16(s.window));
    [p[0], p[1], d[0], d[1], q[0], q[1], q[2], q[3], a[0], a[1], a[2], a[3],
     (MIN_HEADER + |s.options|) / 4 * 16, EncodeFlags(s.flags), w[0], w[1]]
  }

  function Back(s: Segment): seq<u8> { Encode16(s.urgent) + s.options + s.payload }

  /** The whole segment with `checksum` in its field. */
  function Image(s: Segment, checksum: u16): (b: seq<u8>)
    requires |s.options| <= MAX_OPTIONS
    ensures |b| == MIN_HEADER + |s.options| + |s.payload|
  {
    Front(s) + Encode16(checksum) + Back(s)
  }

  function Serialize(s: Segment, source: Address, destination: Address): Result<seq<u8>, SerializeError> {
    if |s.options| % 4 != 0 then Err(UnalignedOptions)
    else if |s.options| > MAX_OPTIONS then Err(OptionsTooLong)
    else if MIN_HEADER + |s.options| + |s.payload| > MAX_SEGMENT_LENGTH then Err(PayloadTooLarge)
    else Ok(Image(s, SegmentChecksum(source, destination, Image(s, 0))))
  }

  /** The pseudo-header and the bytes appended to one buffer, then the Internet checksum. */
  method TcpChecksum(source: Address, destination: Address, bytes: seq<u8>) returns (c: u16)
    requires |bytes| <= MAX_SEGMENT_LENGTH
    ensures c == SegmentChecksum(source, destination, bytes)
  {
    var buffer := source;
    buffer := buffer + destination;
    buffer := buffer + [0] + [6];
    buffer := buffer + Encode16(|bytes|);
    assert buffer == PseudoHeader(source, destination, 6, |bytes|);
    buffer := buffer + bytes;
    c := InternetChecksum(buffer);
  }

  /** Field by field into one growing buffer, the checksum patched in at the end. */
  method SerializeTcpSegment(s: Segment, source: Address, destination: Address)
    returns (r: Result<seq<u8>, SerializeError>)
    ensures r == Serialize(s, source, destination)
  {
    if |s.options| % 4 != 0 {
      return Err(UnalignedOptions);
    }
    if |s.options| > MAX_OPTIONS {
      return Err(OptionsTooLong);
    }
    if MIN_HEADER + |s.options| + |s.payload| > MAX_SEGMENT_LENGTH {
      return Err(PayloadTooLarge);
    }
    var out := Encode16(s.sourcePort);
    out := out + Encode16(s.destinationPort);
    out := out + Encode32(s.seqno);
    out := out + Encode32(s.ackno);
    out := out + [(MIN_HEADER + |s.options|) / 4 * 16];
    out := out + [EncodeFlags(s.flags)];
    out := out + Encode16(s.window);
    assert out == Front(s);
    out := out + Encode16(0);
    out := out + Encode16(s.urgent);
    out := out + s.options;
    out := out + s.payload;
    assert out == Image(s, 0);
    var checksum := TcpChecksum(source, destination, out);
    out := out[16 := checksum / 0x100];
    out := out[17 := checksum % 0x100];
    assert out == Image(s, checksum);
    r := Ok(out);
  }

  /** Every segment that serializes is parsed back unchanged, whatever the addresses. */
  lemma SerializeParse(s: Segment, source: Address, destination: Address)
    requires Serialize(s, source, destination).Ok?
    ensures Parse(Serialize(s, source, destination).value, source, destination) == Ok(s)
  {
    var c := SegmentChecksum(source, destination, Image(s, 0));
    var b := Image(s, c);
    ImageVerifies(s, source, destination);
    ImageFields(s, c);
    FlagsEncodeDecode(s.flags);
  }

  lemma ImageVerifies(s: Segment, source: Address, destination: Address)
    requires Serialize(s, source, destination).Ok?
    ensures SegmentChecksum(source, destination, Serialize(s, source, destination).value) == 0
  {
    hide PseudoHeader, Front, Back, Checksum, Encode16;
    var h := PseudoHeader(source, destination, 6, |Image(s, 0)|);
    var c := SegmentChecksum(source, destination, Image(s, 0));
    ImagePatched(s, h, c);
    PatchedVerifies(h + Image(s, 0), 28, c);
  }

  /** The checksum field of an image behind a pseudo-header. */
  lemma ImagePatched(s: Segment, h: seq<u8>, c: u16)
    requires |s.options| <= MAX_OPTIONS && |h| == 12
    ensures |h + Image(s, 0)| >= 30 && Read16(h + Image(s, 0), 28) == 0
    ensures Patched(h + Image(s, 0), 28, c) == h + Image(s, c)
  {
    hide Front, Back, Encode16;
    var zeroed := h + Image(s, 0);
    assert zeroed[28..30] == Encode16(0);
    Read16Encoded(zeroed, 28, 0);
    assert zeroed[..28] == h + Front(s) && zeroed[30..] == Back(s);
  }

  lemma FrontFields(s: Segment, b: seq<u8>)
    requires |s.options| <= MAX_OPTIONS && |b| >= 16 && b[..16] == Front(s)
    ensures Read16(b, 0) == s.sourcePort && Read16(b, 2) == s.destinationPort
    ensures Read32(b, 4) == s.seqno && Read32(b, 8) == s.ackno && Read16(b, 14) == s.window
    ensures b[12] == (MIN_HEADER + |s.options|) / 4 * 16 && b[13] == EncodeFlags(s.flags)
  {
    hide EncodeFlags, Encode16, Encode32;
    assert forall i | 0 <= i < 16 :: b[i] == b[..16][i];
    Read16Encoded(Encode16(s.sourcePort), 0, s.sourcePort);
    Read16Encoded(Encode16(s.destinationPort), 0, s.destinationPort);
    Read32Encoded(Encode32(s.seqno), 0, s.seqno);
    Read32Encoded(Encode32(s.ackno), 0, s.ackno);
    Read16Encoded(Encode16(s.window), 0, s.window);
  }

  /** The data offset counts words in the high half of its byte. */
  lemma OffsetByte(options: nat, b: u8)
    requires options % 4 == 0 && options <= MAX_OPTIONS
    ensures var o := (MIN_HEADER + options) / 4 * 16; o / 16 * 4 == MIN_HEADER + options && o % 16 == 0
    ensures b % 16 == 0 ==> b / 16 * 4 / 4 * 16 == b
  {
  }

  /** Where the fields of an image are. */
  lemma ImageFields(s: Segment, c: u16)
    requires |s.options| <= MAX_OPTIONS && |s.options| % 4 == 0
    ensures var b := Image(s, c);
            && Read16(b, 0) == s.sourcePort && Read16(b, 2) == s.destinationPort
            && Read32(b, 4) == s.seqno && Read32(b, 8) == s.ackno
            && (b[12] / 16) * 4 == MIN_HEADER + |s.options| && b[12] % 16 == 0
            && b[13] == EncodeFlags(s.flags)
            && Read16(b, 14) == s.window && Read16(b, 16) == c && Read16(b, 18) == s.urgent
            && b[20..20 + |s.options|] == s.options && b[20 + |s.options|..] == s.payload
  {
    var b := Image(s, c);
    assert b[..16] == Front(s);
    FrontFields(s, b);
    OffsetByte(|s.options|, 0);
    assert b[16..18] == Encode16(c) && b[18..20] == Encode16(s.urgent);
    Read16Encoded(b, 16, c);
    Read16Encoded(b, 18, s.urgent);
  }

  /** The field that verifies is the one serialization computes. */
  lemma FieldIsChecksum(s: Segment, f: u16, source: Address, destination: Address)
    requires |s.options| <= MAX_OPTIONS && |Image(s, 0)| <= MAX_SEGMENT_LENGTH
    requires f != 0xffff && SegmentChecksum(source, destination, Image(s, f)) == 0
    ensures f == SegmentChecksum(source, destination, Image(s, 0))
  {
    hide PseudoHeader, Front, Back, WordSum;
    var h := PseudoHeader(source, destination, 6, |Image(s, 0)|);
    var zeroed := h + Image(s, 0);
    ImagePatched(s, h, f);
    WordSumPatched(zeroed, 28, f);
    PseudoHeaderNotZero(source, destination, |Image(s, 0)|, Image(s, 0));
    ComplementIsUnique(WordSum(zeroed), f);
  }

  lemma ParsedShape(bytes: seq<u8>, source: Address, destination: Address)
    requires Parse(bytes, source, destination).Ok?
    ensures var s := Parse(bytes, source, destination).value;
            |s.options| % 4 == 0 && |s.options| <= MAX_OPTIONS && |Image(s, 0)| == |bytes| <= MAX_SEGMENT_LENGTH
  {
    var words: nat := bytes[12] / 16 - 5;
    assert |Parse(bytes, source, destination).value.options| == 4 * words && words <= 10;
  }

  /**
   The other direction.  A received segment re-serializes to the same bytes exactly when the
   four reserved bits are clear and the checksum field is not the redundant 0xffff.
   */
  lemma ParseSerialize(bytes: seq<u8>, source: Address, destination: Address)
    requires Parse(bytes, source, destination).Ok?
    ensures Serialize(Parse(bytes, source, destination).value, source, destination) == Ok(bytes)
            <==> bytes[12] % 16 == 0 && Read16(bytes, 16) != 0xffff
  {
    var s := Parse(bytes, source, destination).value;
    ParsedShape(bytes, source, destination);
    var c := SegmentChecksum(source, destination, Image(s, 0));
    if bytes[12] % 16 == 0 && Read16(bytes, 16) != 0xffff {
      ParsedImage(bytes, source, destination);
      FieldIsChecksum(s, Read16(bytes, 16), source, destination);
    } else {
      ImageFields(s, c);
      SerializedChecksumNotOnes(s, source, destination);
    }
  }

  lemma MultipleVerifies(s: nat)
    requires s > 0 && s % 65535 == 0
    ensures Folded(s) == 65535
  {
    assert s - 1 == 65535 * (s / 65535 - 1) + 65534;
  }

  /** The field is right when the words of pseudo-header and segment sum to a multiple of 65535. */
  lemma AcceptedBySum(bytes: seq<u8>, source: Address, destination: Address, header: nat, body: nat)
    requires |bytes| == MIN_HEADER && bytes[12] / 16 == 5
    requires header == WordSum(PseudoHeader(source, destination, 6, MIN_HEADER)) && body == WordSum(bytes)
    requires header + body > 0 && (header + body) % 65535 == 0
    ensures Parse(bytes, source, destination).Ok?
  {
    hide WordSum, PseudoHeader, Read16, Read32, DecodeFlags, Folded;
    WordSumConcat(PseudoHeader(source, destination, 6, MIN_HEADER), bytes);
    MultipleVerifies(header + body);
  }

  const HERE: Address := [10, 0, 0, 1]
  const THERE: Address := [10, 0, 0, 2]
  const WITH_RESERVED_BIT: seq<u8> := [0, 1, 0, 2, 0, 0, 0, 0, 0, 0, 0, 0, 0x51, 0, 0, 0, 154, 223, 0, 0]
  const WITH_ONES: seq<u8> := [0, 1, 0, 2, 0, 0, 0, 0, 0, 0, 0, 0, 0x50, 0, 0, 0, 0xff, 0xff, 155, 223]

  lemma HeaderSum()
    ensures WordSum(PseudoHeader(HERE, THERE, 6, MIN_HEADER)) == 5149
  {
    var h: seq<u8> := [10, 0, 0, 1, 10, 0, 0, 2, 0, 6, 0, 20];
    assert PseudoHeader(HERE, THERE, 6, MIN_HEADER) == h;
    assert WordSum(h) == 5149;
  }

  lemma NextWord(b: seq<u8>, k: nat)
    requires k + 2 <= |b|
    ensures WordSum(b[k..]) == Read16(b, k) + WordSum(b[k + 2..])
  {
    assert b[k..][2..] == b[k + 2..];
  }

  /** The words of a segment that is only ports, offset, checksum and urgent pointer. */
  lemma SparseSum(b: seq<u8>)
    requires |b| == MIN_HEADER && (forall k | 4 <= k < 12 || 13 <= k < 16 :: b[k] == 0)
    ensures WordSum(b) == Read16(b, 0) + Read16(b, 2) + (b[12] as int) * 256 + Read16(b, 16) + Read16(b, 18)
  {
    hide WordSum;
    assert b[0..] == b;
    NextWord(b, 0);
    NextWord(b, 2);
    NextWord(b, 4);
    NextWord(b, 6);
    NextWord(b, 8);
    NextWord(b, 10);
    NextWord(b, 12);
    NextWord(b, 14);
    NextWord(b, 16);
    NextWord(b, 18);
    assert WordSum(b[20..]) == 0 by { NoWords(b[20..]); }
  }

  lemma NoWords(b: seq<u8>)
    requires b == []
    ensures WordSum(b) == 0
  {
  }

  lemma SegmentSums()
    ensures WordSum(WITH_RESERVED_BIT) == 60386 && WordSum(WITH_ONES) == 125921
  {
    hide WordSum;
    SparseSum(WITH_RESERVED_BIT);
    SparseSum(WITH_ONES);
  }

  /** An accepted segment with a reserved bit set, which serialization clears. */
  lemma ReservedBitIsLost()
    ensures var parsed := Parse(WITH_RESERVED_BIT, HERE, THERE);
            parsed.Ok? && Serialize(parsed.value, HERE, THERE) != Ok(WITH_RESERVED_BIT)
  {
    hide PseudoHeader, Parse, Serialize, WordSum, Read16;
    HeaderSum();
    SegmentSums();
    AcceptedBySum(WITH_RESERVED_BIT, HERE, THERE, 5149, 60386);
    ParseSerialize(WITH_RESERVED_BIT, HERE, THERE);
  }

  /** An accepted segment whose checksum field is 0xffff, for which serialization writes 0. */
  lemma OnesAreLost()
    ensures var parsed := Parse(WITH_ONES, HERE, THERE);
            parsed.Ok? && Serialize(parsed.value, HERE, THERE) != Ok(WITH_ONES)
  {
    hide PseudoHeader, Parse, Serialize, WordSum;
    HeaderSum();
    SegmentSums();
    AcceptedBySum(WITH_ONES, HERE, THERE, 5149, 125921);
    ParseSerialize(WITH_ONES, HERE, THERE);
  }

  lemma PseudoHeaderNotZero(source: Address, destination: Address, length: u16, rest: seq<u8>)
    ensures WordSum(PseudoHeader(source, destination, 6, length) + rest) > 0
  {
    WordSumConcat(PseudoHeader(source, destination, 6, length), rest);
    WordSumConcat(source + destination + [0, 6], Encode16(length));
    WordSumConcat(source + destination, [0, 6]);
  }

  lemma SerializedChecksumNotOnes(s: Segment, source: Address, destination: Address)
    requires |s.options| <= MAX_OPTIONS && |Image(s, 0)| <= MAX_SEGMENT_LENGTH
    ensures SegmentChecksum(source, destination, Image(s, 0)) != 0xffff
  {
    PseudoHeaderNotZero(source, destination, |Image(s, 0)|, Image(s, 0));
  }

  lemma ParsedFront(bytes: seq<u8>, s: Segment)
    requires |bytes| >= MIN_HEADER && |s.options| <= MAX_OPTIONS
    requires s.sourcePort == Read16(bytes, 0) && s.destinationPort == Read16(bytes, 2)
    requires s.seqno == Read32(bytes, 4) && s.ackno == Read32(bytes, 8) && s.window == Read16(bytes, 14)
    requires bytes[12] == (MIN_HEADER + |s.options|) / 4 * 16 && bytes[13] == EncodeFlags(s.flags)
    ensures Front(s) == bytes[..16]
  {
    Read16Encode(bytes, 0);
    Read16Encode(bytes, 2);
    Read32Encode(bytes, 4);
    Read32Encode(bytes, 8);
    Read16Encode(bytes, 14);
  }

  lemma ParsedFields(bytes: seq<u8>, source: Address, destination: Address)
    requires Parse(bytes, source, destination).Ok? && bytes[12] % 16 == 0
    ensures var s := Parse(bytes, source, destination).value;
            && MIN_HEADER + |s.options| <= |bytes| && |s.options| <= MAX_OPTIONS
            && s.options == bytes[20..20 + |s.options|] && s.payload == bytes[20 + |s.options|..]
            && s.urgent == Read16(bytes, 18) && Front(s) == bytes[..16]
  {
    hide SegmentChecksum, Read16, Read32, Front, EncodeFlags, DecodeFlags;
    var s := Parse(bytes, source, destination).value;
    OffsetByte(0, bytes[12]);
    FlagsDecodeEncode(bytes[13]);
    ParsedFront(bytes, s);
  }

  lemma Cut(bytes: seq<u8>, header: nat)
    requires 20 <= header <= |bytes|
    ensures bytes == bytes[..16] + bytes[16..18] + (bytes[18..20] + bytes[20..header] + bytes[header..])
  {
  }

  lemma ParsedImage(bytes: seq<u8>, source: Address, destination: Address)
    requires Parse(bytes, source, destination).Ok? && bytes[12] % 16 == 0
    ensures bytes == Image(Parse(bytes, source, destination).value, Read16(bytes, 16))
  {
    hide Parse, Front, Read16, Encode16;
    ParsedFields(bytes, source, destination);
    Read16Encode(bytes, 16);
    Read16Encode(bytes, 18);
    Cut(bytes, MIN_HEADER + |Parse(bytes, source, destination).value.options|);
  }
}
