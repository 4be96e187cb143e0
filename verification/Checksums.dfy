/** The Internet checksum of RFC 1071 and the arithmetic that makes a patched field verify. */
module Checksums {
  import opened Primitives
  import opened BigEndian

  const MAX_EXACT_LENGTH: nat := 131074

  /** Sum of the big-endian 16-bit words; an odd final byte is the high half of a word. */
  function WordSum(data: seq<u8>): nat {
    if data == [] then 0
    else if |data| == 1 then (data[0] as int) * 0x100
    else Read16(data, 0) + WordSum(data[2..])
  }

  /** The one's-complement residue of `s` modulo 65535: zero only for zero. */
  function Folded(s: nat): (f: u16)
    ensures f == 0 <==> s == 0
  {
    if s == 0 then 0 else (s - 1) % 65535 + 1
  }

  function Checksum(data: seq<u8>): u16 { 65535 - Folded(WordSum(data)) }

  // ---------------------------------------------------------------- the loops

  lemma FoldStep(s: nat)
    ensures Folded(s % 0x1_0000 + s / 0x1_0000) == Folded(s)
  {
    var h, l := s / 0x1_0000, s % 0x1_0000;
    assert s == 0x1_0000 * h + l;
    if s > 0 {
      assert s - 1 == 65535 * h + (l + h - 1);
      ModShift(l + h - 1, h);
    }
  }

  lemma ModShift(a: nat, k: nat)
    ensures (65535 * k + a) % 65535 == a % 65535
  {
  }

  lemma {:induction false} WordSumBound(data: seq<u8>)
    ensures WordSum(data) <= 65535 * ((|data| + 1) / 2)
    decreases |data|
  {
    if |data| >= 2 {
      WordSumBound(data[2..]);
    }
  }

  /** `n` bytes of 0xff: the largest word sum a buffer of that length can have. */
  function Ones(n: nat): (b: seq<u8>)
    ensures |b| == n && forall i | 0 <= i < n :: b[i] == 255
  {
    seq(n, _ => 255)
  }

  lemma {:induction false} WordSumOfOnes(b: seq<u8>)
    requires forall i | 0 <= i < |b| :: b[i] == 255
    ensures WordSum(b) == 65535 * (|b| / 2) + (if |b| % 2 == 1 then 0xff00 else 0)
    decreases |b|
  {
    if |b| >= 2 {
      WordSumOfOnes(b[2..]);
    }
  }

  /** The 32-bit accumulator is exact up to 131074 bytes, and from 131075 bytes on it can overflow. */
  lemma AccumulatorBound(n: nat)
    ensures n <= MAX_EXACT_LENGTH <==> forall data: seq<u8> | |data| == n :: WordSum(data) < 0x1_0000_0000
  {
    if n <= MAX_EXACT_LENGTH {
      forall data: seq<u8> | |data| == n
        ensures WordSum(data) < 0x1_0000_0000
      {
        WordSumBound(data);
      }
    } else {
      WordSumOfOnes(Ones(n));
    }
  }

  const WORD32: int := 0x1_0000_0000

  /** `a + w` in a 32-bit accumulator. */
  function Add32(a: u32, w: u16): u32 { if a + w < WORD32 then a + w else a + w - WORD32 }

  lemma Add32IsModular(a: u32, w: u16, exact: nat)
    requires a == exact % WORD32
    ensures Add32(a, w) == (exact + w) % WORD32
  {
  }

  /** The fold loop: end-around carry until the sum fits sixteen bits. */
  method Fold(start: u32) returns (f: u16)
    ensures f == Folded(start)
  {
    var sum := start;
    while sum / 0x1_0000 != 0
      invariant Folded(sum) == Folded(start)
      decreases sum
    {
      FoldStep(sum);
      sum := sum % 0x1_0000 + sum / 0x1_0000;
    }
    f := sum;
  }

  /** The word loop and the odd tail over a 32-bit accumulator. */
  method SumWords(data: seq<u8>) returns (sum: u32)
    ensures sum == WordSum(data) % WORD32
  {
    sum := 0;
    ghost var exact: nat := 0;
    var i := 0;
    assert data[0..] == data;
    while i + 1 < |data|
      invariant i <= |data|
      invariant sum == exact % WORD32
      invariant exact + WordSum(data[i..]) == WordSum(data)
    {
      var word := Read16(data, i);
      assert data[i..][2..] == data[i + 2..];
      Add32IsModular(sum, word, exact);
      sum := Add32(sum, word);
      exact := exact + word;
      i := i + 2;
    }
    if i < |data| {
      assert data[i..] == [data[i]];
      Add32IsModular(sum, (data[i] as int) * 0x100, exact);
      sum := Add32(sum, (data[i] as int) * 0x100);
    }
  }

  method InternetChecksum(data: seq<u8>) returns (c: u16)
    ensures c == 65535 - Folded(WordSum(data) % WORD32)
    ensures |data| <= MAX_EXACT_LENGTH ==> c == Checksum(data)
  {
    var sum := SumWords(data);
    var folded := Fold(sum);
    c := 65535 - folded;
    if |data| <= MAX_EXACT_LENGTH {
      WordSumBound(data);
    }
  }

  // ---------------------------------------------------------------- patched fields

  lemma {:induction false} WordSumConcat(a: seq<u8>, b: seq<u8>)
    requires |a| % 2 == 0
    ensures WordSum(a + b) == WordSum(a) + WordSum(b)
    decreases |a|
  {
    if a == [] {
      assert a + b == b;
    } else {
      assert (a + b)[2..] == a[2..] + b;
      WordSumConcat(a[2..], b);
    }
  }

  function Patched(b: seq<u8>, at: nat, v: u16): seq<u8>
    requires at + 2 <= |b|
  {
    b[..at] + Encode16(v) + b[at + 2..]
  }

  /** Replacing one aligned word changes the sum by exactly the difference of the words. */
  lemma WordSumPatched(b: seq<u8>, at: nat, v: u16)
    requires at % 2 == 0 && at + 2 <= |b|
    ensures WordSum(Patched(b, at, v)) == WordSum(b) - Read16(b, at) + v
  {
    hide WordSum, Encode16;
    assert b == b[..at] + b[at..at + 2] + b[at + 2..];
    assert Read16(b[at..at + 2], 0) == Read16(b, at);
    WordSumThree(b[..at], b[at..at + 2], b[at + 2..]);
    WordSumThree(b[..at], Encode16(v), b[at + 2..]);
    Read16Encoded(Encode16(v), 0, v);
  }

  lemma WordSumThree(a: seq<u8>, w: seq<u8>, z: seq<u8>)
    requires |a| % 2 == 0 && |w| == 2
    ensures WordSum(a + w + z) == WordSum(a) + Read16(w, 0) + WordSum(z)
  {
    WordSumConcat(a + w, z);
    WordSumConcat(a, w);
    assert w[2..] == [];
  }

  /** Adding the complement of the residue gives a multiple of 65535, which folds to all ones. */
  lemma ComplementFoldsToOnes(s: nat, c: u16)
    requires c == 65535 - Folded(s) || (c == 65535 && Folded(s) == 65535)
    ensures Folded(s + c) == 65535
  {
    if s > 0 {
      var q, r := (s - 1) / 65535, (s - 1) % 65535;
      assert s - 1 == 65535 * q + r;
      if c == 65535 - Folded(s) {
        assert s + c - 1 == 65535 * q + 65534;
        ModShift(65534, q);
      } else {
        assert s + c - 1 == 65535 * (q + 1) + 65534;
        ModShift(65534, q + 1);
      }
    }
  }

  /** Only one 16-bit value other than 0xffff makes a non-zero sum verify. */
  lemma ComplementIsUnique(s: nat, c: u16)
    requires s > 0 && Folded(s + c) == 65535 && c != 65535
    ensures c == 65535 - Folded(s)
  {
    var q, r := (s - 1) / 65535, (s - 1) % 65535;
    assert s - 1 == 65535 * q + r;
    assert s + c - 1 == 65535 * q + (r + c);
    ModShift(r + c, q);
  }

  /** Storing the checksum in its zeroed, aligned field makes the whole buffer verify to zero. */
  lemma PatchedVerifies(b: seq<u8>, at: nat, c: u16)
    requires at % 2 == 0 && at + 2 <= |b| && Read16(b, at) == 0
    requires c == Checksum(b) || (c == 0xffff && Checksum(b) == 0)
    ensures Checksum(Patched(b, at, c)) == 0
  {
    WordSumPatched(b, at, c);
    ComplementFoldsToOnes(WordSum(b), c);
  }
}
