/** Big-endian fields, as `readBigEndian16/32` and `writeBigEndian16/32` read and write them. */
module BigEndian {
  import opened Primitives

  function Encode16(v: u16): (b: seq<u8>)
    ensures |b| == 2
  {
    [v / 0x100, v % 0x100]
  }

  function Encode32(v: u32): (b: seq<u8>)
    ensures |b| == 4
  {
    [v / 0x100 / 0x100 / 0x100, v / 0x100 / 0x100 % 0x100, v / 0x100 % 0x100, v % 0x100]
  }

  function Read16(b: seq<u8>, i: nat): u16
    requires i + 2 <= |b|
  {
    (b[i] as int) * 0x100 + b[i + 1]
  }

  function Read32(b: seq<u8>, i: nat): u32
    requires i + 4 <= |b|
  {
    (((b[i] as int) * 0x100 + b[i + 1]) * 0x100 + b[i + 2]) * 0x100 + b[i + 3]
  }

  /** A field written anywhere in a buffer is read back unchanged. */
  lemma Read16Encoded(b: seq<u8>, i: nat, v: u16)
    requires i + 2 <= |b| && b[i..i + 2] == Encode16(v)
    ensures Read16(b, i) == v
  {
    assert b[i] == b[i..i + 2][0] && b[i + 1] == b[i..i + 2][1];
  }

  lemma Digits(v: nat)
    ensures v == (((v / 0x100 / 0x100 / 0x100) * 0x100 + v / 0x100 / 0x100 % 0x100) * 0x100 + v / 0x100 % 0x100) * 0x100
                 + v % 0x100
  {
    var a := v / 0x100;
    var b := a / 0x100;
    assert v == a * 0x100 + v % 0x100 && a == b * 0x100 + a % 0x100 && b == b / 0x100 * 0x100 + b % 0x100;
  }

  lemma Digit(a: nat, d: u8)
    ensures (a * 0x100 + d) / 0x100 == a && (a * 0x100 + d) % 0x100 == d
  {
  }

  lemma Read32Encoded(b: seq<u8>, i: nat, v: u32)
    requires i + 4 <= |b| && b[i..i + 4] == Encode32(v)
    ensures Read32(b, i) == v
  {
    var w := b[i..i + 4];
    assert b[i] == w[0] && b[i + 1] == w[1] && b[i + 2] == w[2] && b[i + 3] == w[3];
    Digits(v);
  }

  /** And bytes read as a field are written back unchanged. */
  lemma Read16Encode(b: seq<u8>, i: nat)
    requires i + 2 <= |b|
    ensures Encode16(Read16(b, i)) == b[i..i + 2]
  {
    Digit(b[i], b[i + 1]);
  }

  lemma Read32Encode(b: seq<u8>, i: nat)
    requires i + 4 <= |b|
    ensures Encode32(Read32(b, i)) == b[i..i + 4]
  {
    var x := (b[i] as int) * 0x100 + b[i + 1];
    var y := x * 0x100 + b[i + 2];
    Digit(b[i], b[i + 1]);
    Digit(x, b[i + 2]);
    Digit(y, b[i + 3]);
  }
}
