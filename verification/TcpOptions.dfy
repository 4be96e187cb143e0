/**
 TCP option lists: the parser, the three builders, and a grammar of option lists that the
 parser is shown to invert.
 */
module TcpOptions {
  import opened Primitives
  import opened BigEndian

  const TCP_MSS: u16 := 1460
  const LOCAL_WINDOW_SCALE: u8 := 2
  const MAX_OPTIONS_LENGTH: nat := 40

  datatype SackBlock = SackBlock(left: u32, right: u32)

  datatype ParsedOptions = ParsedOptions(
    mss: Option<u16>, windowScale: Option<u8>, sackPermitted: bool, sackBlocks: seq<SackBlock>)

  const NO_OPTIONS := ParsedOptions(None, None, false, [])

  datatype OptionError =
    | MissingLength | InvalidLength | TruncatedOption | DuplicateMss | DuplicateWindowScale | InvalidMss
    | DuplicateSackPermitted | DuplicateSack | InvalidSackPermittedLength | InvalidSackLength

  // ---------------------------------------------------------------- the parser

  function ReadBlocks(o: seq<u8>, i: nat, count: nat): (blocks: seq<SackBlock>)
    requires i + 8 * count <= |o|
    ensures |blocks| == count
    decreases count
  {
    if count == 0 then []
    else [SackBlock(Read32(o, i), Read32(o, i + 4))] + ReadBlocks(o, i + 8, count - 1)
  }

  /** One option `o` (kind, length, body) applied to what has been parsed so far. */
  function Apply(o: seq<u8>, p: ParsedOptions): Result<ParsedOptions, OptionError>
    requires 2 <= |o|
  {
    if o[0] == 2 then
      if |o| != 4 then Err(TruncatedOption)
      else if p.mss.Some? then Err(DuplicateMss)
      else if Read16(o, 2) == 0 then Err(InvalidMss)
      else Ok(p.(mss := Some(Read16(o, 2))))
    else if o[0] == 3 then
      if |o| != 3 then Err(TruncatedOption)
      else if p.windowScale.Some? then Err(DuplicateWindowScale)
      else Ok(p.(windowScale := Some(o[2])))
    else if o[0] == 4 then
      if |o| != 2 then Err(InvalidSackPermittedLength)
      else if p.sackPermitted then Err(DuplicateSackPermitted)
      else Ok(p.(sackPermitted := true))
    else if o[0] == 5 then
      if |o| != 10 && |o| != 18 && |o| != 26 && |o| != 34 then Err(InvalidSackLength)
      else if p.sackBlocks != [] then Err(DuplicateSack)
      else Ok(p.(sackBlocks := ReadBlocks(o, 2, (|o| - 2) / 8)))
    else Ok(p)
  }

  function ParseFrom(o: seq<u8>, p: ParsedOptions): Result<ParsedOptions, OptionError>
    decreases |o|
  {
    if o == [] || o[0] == 0 then Ok(p)
    else if o[0] == 1 then ParseFrom(o[1..], p)
    else if |o| < 2 then Err(MissingLength)
    else if o[1] < 2 then Err(InvalidLength)
    else if o[1] > |o| then Err(TruncatedOption)
    else
      match Apply(o[..o[1]], p)
      case Err(e) => Err(e)
      case Ok(p') => ParseFrom(o[o[1]..], p')
  }

  function ParseOptions(o: seq<u8>): Result<ParsedOptions, OptionError> { ParseFrom(o, NO_OPTIONS) }

  /** A parsed MSS is never zero. */
  lemma {:induction false} ParsedMssPositive(o: seq<u8>, p: ParsedOptions)
    requires p.mss.Some? ==> p.mss.value > 0
    ensures ParseFrom(o, p).Ok? && ParseFrom(o, p).value.mss.Some? ==> ParseFrom(o, p).value.mss.value > 0
    decreases |o|
  {
    if o == [] || o[0] == 0 {
    } else if o[0] == 1 {
      ParsedMssPositive(o[1..], p);
    } else if |o| >= 2 && 2 <= o[1] <= |o| && Apply(o[..o[1]], p).Ok? {
      ParsedMssPositive(o[o[1]..], Apply(o[..o[1]], p).value);
    }
  }

  /** The block loop of the SACK option. */
  method ReadSackBlocks(options: seq<u8>, start: nat, count: nat) returns (blocks: seq<SackBlock>)
    requires start + 8 * count <= |options|
    ensures blocks == ReadBlocks(options, start, count)
  {
    blocks := [];
    var b := 0;
    while b < count
      invariant b <= count
      invariant blocks + ReadBlocks(options, start + 8 * b, count - b) == ReadBlocks(options, start, count)
    {
      var at := start + 8 * b;
      blocks := blocks + [SackBlock(Read32(options, at), Read32(options, at + 4))];
      b := b + 1;
    }
  }

  /** The option loop: an index into the option bytes, one option consumed per iteration. */
  method ParseTcpOptions(options: seq<u8>) returns (r: Result<ParsedOptions, OptionError>)
    ensures r == ParseOptions(options)
  {
    var parsed := NO_OPTIONS;
    var i := 0;
    assert options[0..] == options;
    while i < |options|
      invariant i <= |options|
      invariant ParseFrom(options[i..], parsed) == ParseOptions(options)
    {
      var rest := options[i..];
      var kind := options[i];
      if kind == 0 {
        break;
      }
      if kind == 1 {
        assert rest[1..] == options[i + 1..];
        i := i + 1;
        continue;
      }
      if i + 1 >= |options| {
        return Err(MissingLength);
      }
      var length := options[i + 1];
      if length < 2 {
        return Err(InvalidLength);
      }
      if i + length > |options| {
        return Err(TruncatedOption);
      }
      var option := rest[..length];
      assert rest[length..] == options[i + length..];
      if kind == 2 {
        if length != 4 {
          return Err(TruncatedOption);
        }
        if parsed.mss.Some? {
          return Err(DuplicateMss);
        }
        var value := Read16(options, i + 2);
        assert value == Read16(option, 2);
        if value == 0 {
          return Err(InvalidMss);
        }
        parsed := parsed.(mss := Some(value));
      } else if kind == 3 {
        if length != 3 {
          return Err(TruncatedOption);
        }
        if parsed.windowScale.Some? {
          return Err(DuplicateWindowScale);
        }
        parsed := parsed.(windowScale := Some(options[i + 2]));
      } else if kind == 4 {
        if length != 2 {
          return Err(InvalidSackPermittedLength);
        }
        if parsed.sackPermitted {
          return Err(DuplicateSackPermitted);
        }
        parsed := parsed.(sackPermitted := true);
      } else if kind == 5 {
        if length != 10 && length != 18 && length != 26 && length != 34 {
          return Err(InvalidSackLength);
        }
        if parsed.sackBlocks != [] {
          return Err(DuplicateSack);
        }
        var blocks := ReadSackBlocks(option, 2, (length - 2) / 8);
        parsed := parsed.(sackBlocks := blocks);
      }
      i := i + length;
    }
    return Ok(parsed);
  }

  // ---------------------------------------------------------------- the builders

  function EncodeBlocks(blocks: seq<SackBlock>): (b: seq<u8>)
    ensures |b| == 8 * |blocks|
  {
    if blocks == [] then []
    else Encode32(blocks[0].left) + Encode32(blocks[0].right) + EncodeBlocks(blocks[1..])
  }

  /** EOL and zero padding up to the next four-byte boundary. */
  function Padded(o: seq<u8>): (p: seq<u8>)
    ensures |p| % 4 == 0 && |o| <= |p| < |o| + 4 && o <= p
    ensures forall i | |o| <= i < |p| :: p[i] == 0
  {
    if |o| % 4 == 0 then o
    else if |o| % 4 == 3 then o + [0]
    else if |o| % 4 == 2 then o + [0, 0]
    else o + [0, 0, 0]
  }

  function MssOption(): seq<u8> { [2, 4, 5, 180] }

  function BuildSynAckOptions(sackPermitted: bool, windowScaling: bool, localScale: u8): seq<u8> {
    Padded(MssOption() + (if sackPermitted then [4, 2] else [])
           + (if windowScaling then [1, 3, 3, localScale] else []))
  }

  function BuildActiveSynOptions(): seq<u8> {
    Padded(MssOption() + [4, 2] + [1, 3, 3, LOCAL_WINDOW_SCALE])
  }

  function BuildSackOptions(blocks: seq<SackBlock>): seq<u8>
    requires |blocks| <= 31
  {
    if blocks == [] then [] else Padded([5, 2 + 8 * |blocks|] + EncodeBlocks(blocks))
  }

  /** The padding loop at the end of every builder. */
  method PadToWord(o: seq<u8>) returns (p: seq<u8>)
    ensures p == Padded(o)
  {
    p := o;
    while |p| % 4 != 0
      invariant |o| <= |p| <= |Padded(o)| && o <= p
      invariant forall i | |o| <= i < |p| :: p[i] == 0
      decreases |Padded(o)| - |p|
    {
      p := p + [0];
    }
    PaddingIsUnique(o, p, Padded(o));
  }

  lemma PaddingIsUnique(o: seq<u8>, p: seq<u8>, q: seq<u8>)
    requires |p| % 4 == 0 && |o| <= |p| < |o| + 4 && o <= p && forall i | |o| <= i < |p| :: p[i] == 0
    requires |q| % 4 == 0 && |o| <= |q| < |o| + 4 && o <= q && forall i | |o| <= i < |q| :: q[i] == 0
    ensures p == q
  {
    assert |p| == |q|;
    assert forall i | 0 <= i < |o| :: p[i] == o[i] == q[i];
  }

  /** `buildSynAckOptions`. */
  method SynAckOptionBytes(sackPermitted: bool, windowScaling: bool, localScale: u8) returns (out: seq<u8>)
    ensures out == BuildSynAckOptions(sackPermitted, windowScaling, localScale)
  {
    hide Padded;
    out := [2, 4] + [TCP_MSS / 0x100, TCP_MSS % 0x100];
    assert out == MssOption();
    if sackPermitted {
      out := out + [4, 2];
    }
    if windowScaling {
      out := out + [1, 3, 3, localScale];
    }
    assert out == MssOption() + (if sackPermitted then [4, 2] else [])
           + (if windowScaling then [1, 3, 3, localScale] else []);
    out := PadToWord(out);
  }

  /** `buildSackOptions`. */
  method SackOptionBytes(blocks: seq<SackBlock>) returns (out: seq<u8>)
    requires |blocks| <= 31
    ensures out == BuildSackOptions(blocks)
  {
    hide Padded, Encode32;
    if blocks == [] {
      return [];
    }
    var body: seq<u8> := [];
    assert blocks[0..] == blocks;
    for i := 0 to |blocks|
      invariant body + EncodeBlocks(blocks[i..]) == EncodeBlocks(blocks)
    {
      assert blocks[i..][1..] == blocks[i + 1..];
      var b := Encode32(blocks[i].left) + Encode32(blocks[i].right);
      ghost var rest := EncodeBlocks(blocks[i + 1..]);
      assert body + (b + rest) == (body + b) + rest;
      body := body + b;
    }
    assert blocks[|blocks|..] == [];
    out := PadToWord([5, 2 + 8 * |blocks|] + body);
  }

  // ---------------------------------------------------------------- a grammar of option lists

  datatype Opt =
    | Nop
    | Mss(value: u16)
    | Scale(shift: u8)
    | SackOk
    | Sack(blocks: seq<SackBlock>)
    | Unknown(kind: u8, body: seq<u8>)
  {
    predicate WellFormed() {
      match this
      case Sack(bs) => 1 <= |bs| <= 4
      case Unknown(k, b) => k > 5 && |b| <= 253
      case _ => true
    }

    function Encode(): (b: seq<u8>)
      requires WellFormed()
      ensures b != [] && b[0] != 0
    {
      match this
      case Nop => [1]
      case Mss(v) => [2, 4] + Encode16(v)
      case Scale(s) => [3, 3, s]
      case SackOk => [4, 2]
      case Sack(bs) => [5, 2 + 8 * |bs|] + EncodeBlocks(bs)
      case Unknown(k, b) => [k, 2 + |b|] + b
    }

    /** What the option adds, or the error that its repetition or a zero MSS is. */
    function Meaning(p: ParsedOptions): Result<ParsedOptions, OptionError> {
      match this
      case Nop => Ok(p)
      case Mss(v) =>
        if p.mss.Some? then Err(DuplicateMss) else if v == 0 then Err(InvalidMss) else Ok(p.(mss := Some(v)))
      case Scale(s) => if p.windowScale.Some? then Err(DuplicateWindowScale) else Ok(p.(windowScale := Some(s)))
      case SackOk => if p.sackPermitted then Err(DuplicateSackPermitted) else Ok(p.(sackPermitted := true))
      case Sack(bs) => if p.sackBlocks != [] then Err(DuplicateSack) else Ok(p.(sackBlocks := bs))
      case Unknown(_, _) => Ok(p)
    }
  }

  predicate AllWellFormed(opts: seq<Opt>) { forall o | o in opts :: o.WellFormed() }

  function EncodeAll(opts: seq<Opt>): seq<u8>
    requires AllWellFormed(opts)
  {
    if opts == [] then [] else opts[0].Encode() + EncodeAll(opts[1..])
  }

  function MeaningAll(opts: seq<Opt>, p: ParsedOptions): Result<ParsedOptions, OptionError>
    decreases |opts|
  {
    if opts == [] then Ok(p)
    else
      match opts[0].Meaning(p)
      case Err(e) => Err(e)
      case Ok(p') => MeaningAll(opts[1..], p')
  }

  lemma {:induction false} ReadEncodedBlocks(front: seq<u8>, blocks: seq<SackBlock>)
    ensures ReadBlocks(front + EncodeBlocks(blocks), |front|, |blocks|) == blocks
    decreases |blocks|
  {
    if blocks != [] {
      var l, r := Encode32(blocks[0].left), Encode32(blocks[0].right);
      var b := front + EncodeBlocks(blocks);
      assert b == front + l + r + EncodeBlocks(blocks[1..]);
      assert b[|front|..|front| + 4] == l && b[|front| + 4..|front| + 8] == r;
      Read32Encoded(b, |front|, blocks[0].left);
      Read32Encoded(b, |front| + 4, blocks[0].right);
      ReadEncodedBlocks(front + l + r, blocks[1..]);
    }
  }

  lemma ApplyEncoded(o: Opt, p: ParsedOptions)
    requires o.WellFormed() && !o.Nop?
    ensures var b := o.Encode();
            2 <= |b| < 256 && b[1] == |b| && b[0] >= 2 && Apply(b, p) == o.Meaning(p)
  {
    var b := o.Encode();
    match o
    case Mss(v) =>
      assert b[2..4] == Encode16(v);
      Read16Encoded(b, 2, v);
    case Sack(bs) =>
      ReadEncodedBlocks(b[..2], bs);
      assert b == b[..2] + EncodeBlocks(bs);
    case _ =>
  }

  /** One encoded option in front of any bytes is consumed whole and means what it should. */
  lemma ParseStep(o: Opt, tail: seq<u8>, p: ParsedOptions)
    requires o.WellFormed()
    ensures o.Meaning(p).Err? ==> ParseFrom(o.Encode() + tail, p) == o.Meaning(p)
    ensures o.Meaning(p).Ok? ==> ParseFrom(o.Encode() + tail, p) == ParseFrom(tail, o.Meaning(p).value)
  {
    var b := o.Encode();
    var all := b + tail;
    if o.Nop? {
      assert all[1..] == tail;
    } else {
      ApplyEncoded(o, p);
      assert all[..|b|] == b && all[|b|..] == tail;
    }
  }

  /**
   The parser inverts the grammar: every list of well-formed options, followed by the end of
   the area or by an end-of-list byte and any padding, parses to its meaning; a repeated option
   and a zero MSS are the matching errors.
   */
  lemma {:induction false} ParseInvertsEncode(opts: seq<Opt>, tail: seq<u8>, p: ParsedOptions)
    requires AllWellFormed(opts)
    requires tail == [] || tail[0] == 0
    ensures ParseFrom(EncodeAll(opts) + tail, p) == MeaningAll(opts, p)
    decreases |opts|
  {
    if opts == [] {
      assert EncodeAll(opts) + tail == tail;
    } else {
      var rest := EncodeAll(opts[1..]) + tail;
      assert EncodeAll(opts) + tail == opts[0].Encode() + rest;
      ParseStep(opts[0], rest, p);
      match opts[0].Meaning(p)
      case Err(_) =>
      case Ok(p') => ParseInvertsEncode(opts[1..], tail, p');
    }
  }

  lemma ParsePadded(opts: seq<Opt>)
    requires AllWellFormed(opts)
    ensures ParseOptions(Padded(EncodeAll(opts))) == MeaningAll(opts, NO_OPTIONS)
  {
    var o := EncodeAll(opts);
    var tail := Padded(o)[|o|..];
    assert Padded(o) == o + tail;
    ParseInvertsEncode(opts, tail, NO_OPTIONS);
  }

  /** A SACK area of one to four blocks is aligned, fits, and parses back to exactly its blocks. */
  lemma SackRoundTrip(blocks: seq<SackBlock>)
    requires 1 <= |blocks| <= 4
    ensures var o := BuildSackOptions(blocks);
            && |o| % 4 == 0 && |o| <= MAX_OPTIONS_LENGTH
            && ParseOptions(o) == Ok(NO_OPTIONS.(sackBlocks := blocks))
  {
    var opts := [Sack(blocks)];
    assert EncodeAll(opts) == Sack(blocks).Encode() + EncodeAll(opts[1..]);
    assert EncodeAll(opts) == [5, 2 + 8 * |blocks|] + EncodeBlocks(blocks);
    ParsePadded(opts);
    assert MeaningAll(opts, NO_OPTIONS) == MeaningAll(opts[1..], NO_OPTIONS.(sackBlocks := blocks));
  }

  /** The same area as a list: the optional entries in front of a tail. */
  function ScaleList(windowScaling: bool, localScale: u8): seq<Opt> {
    if windowScaling then [Nop] + [Scale(localScale)] else []
  }

  function SackList(sackPermitted: bool, tail: seq<Opt>): seq<Opt> {
    if sackPermitted then [SackOk] + tail else tail
  }

  lemma Cons(o: Opt, rest: seq<Opt>, p: ParsedOptions)
    requires o.WellFormed() && AllWellFormed(rest)
    ensures AllWellFormed([o] + rest) && EncodeAll([o] + rest) == o.Encode() + EncodeAll(rest)
    ensures o.Meaning(p).Ok? ==> MeaningAll([o] + rest, p) == MeaningAll(rest, o.Meaning(p).value)
  {
    assert ([o] + rest)[1..] == rest;
  }

  lemma ScaleListMeaning(windowScaling: bool, localScale: u8, p: ParsedOptions)
    requires p.windowScale.None?
    ensures var l := ScaleList(windowScaling, localScale);
            && AllWellFormed(l)
            && EncodeAll(l) == (if windowScaling then [1, 3, 3, localScale] else [])
            && MeaningAll(l, p) == Ok(p.(windowScale := if windowScaling then Some(localScale) else None))
  {
    if windowScaling {
      Cons(Scale(localScale), [], p);
      assert [Scale(localScale)] + [] == [Scale(localScale)];
      Cons(Nop, [Scale(localScale)], p);
    }
  }

  /** A SYN-ACK's options are aligned, fit, and carry exactly the negotiated subset. */
  lemma SynAckRoundTrip(sackPermitted: bool, windowScaling: bool, localScale: u8)
    ensures var o := BuildSynAckOptions(sackPermitted, windowScaling, localScale);
            && |o| % 4 == 0 && |o| <= MAX_OPTIONS_LENGTH
            && ParseOptions(o) == Ok(ParsedOptions(
                 Some(TCP_MSS), if windowScaling then Some(localScale) else None, sackPermitted, []))
  {
    hide EncodeAll, MeaningAll, ParseOptions, Padded, AllWellFormed;
    var scale := ScaleList(windowScaling, localScale);
    var sack := SackList(sackPermitted, scale);
    var p := NO_OPTIONS.(mss := Some(TCP_MSS));
    var p' := p.(sackPermitted := sackPermitted);
    ScaleListMeaning(windowScaling, localScale, p');
    if sackPermitted {
      Cons(SackOk, scale, p);
    }
    assert MeaningAll(sack, p) == MeaningAll(scale, p');
    assert EncodeAll(sack) == (if sackPermitted then [4, 2] else []) + EncodeAll(scale);
    Cons(Mss(TCP_MSS), sack, NO_OPTIONS);
    var opts := [Mss(TCP_MSS)] + sack;
    assert Mss(TCP_MSS).Encode() == MssOption();
    assert EncodeAll(opts) ==
           MssOption() + (if sackPermitted then [4, 2] else []) + (if windowScaling then [1, 3, 3, localScale] else []);
    ParsePadded(opts);
  }

  /** The active SYN offers everything, in the layout of a fully negotiated SYN-ACK. */
  lemma ActiveSynRoundTrip()
    ensures BuildActiveSynOptions() == BuildSynAckOptions(true, true, LOCAL_WINDOW_SCALE)
    ensures ParseOptions(BuildActiveSynOptions()) ==
            Ok(ParsedOptions(Some(TCP_MSS), Some(LOCAL_WINDOW_SCALE), true, []))
  {
    SynAckRoundTrip(true, true, LOCAL_WINDOW_SCALE);
  }
}
