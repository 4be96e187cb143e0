/**
 The SACK scoreboard as the source computes it: filter by signed differences, sort, merge and
 mark.  Offsets are distances from the cumulative ACK.

 The three signed tests also pass blocks that wrap around: `Far` describes them exactly.  They
 sort behind every true block, never merge with one and never contain an entry, so the marks are
 those of the set view in `MarkSacked`.
 */
module Scoreboard {
  import opened Primitives
  import opened SequenceSpace
  import opened TcpOptions
  import opened TcpTypes
  import opened Sending

  predicate Passes(b: SackBlock, ack: u32, nxt: u32) {
    SeqGreater(b.left, ack) && SeqGreater(b.right, b.left) && !SeqGreater(b.right, nxt)
  }

  function Left(b: SackBlock, ack: u32): nat { Sub(b.left, ack) }

  function Right(b: SackBlock, ack: u32): nat { Sub(b.right, ack) }

  /** A block whose right edge lies half the space or more beyond `snd_nxt`. */
  predicate Far(b: SackBlock, ack: u32, nxt: u32) {
    Sub(nxt, ack) < Left(b, ack) < HALF && Sub(nxt, ack) + HALF <= Right(b, ack)
  }

  /** What the three tests let through. */
  lemma PassesExactly(b: SackBlock, ack: u32, nxt: u32)
    requires Sub(nxt, ack) < HALF
    ensures Passes(b, ack, nxt) <==>
            TrueBlock(b, ack, nxt) || (Far(b, ack, nxt) && Right(b, ack) < Left(b, ack) + HALF)
  {
  }

  // ---------------------------------------------------------------- sort

  function InsertBlock(s: seq<SackBlock>, b: SackBlock): seq<SackBlock> {
    if s == [] then [b]
    else if SeqGreater(s[0].left, b.left) then [b] + s
    else [s[0]] + InsertBlock(s[1..], b)
  }

  function SortBlocks(s: seq<SackBlock>): seq<SackBlock> {
    if s == [] then [] else InsertBlock(SortBlocks(s[1..]), s[0])
  }

  /** Every block passes, and left edges do not decrease from `lo` on. */
  predicate Ordered(s: seq<SackBlock>, lo: nat, ack: u32, nxt: u32) {
    s == [] || (Passes(s[0], ack, nxt) && lo <= Left(s[0], ack) && Ordered(s[1..], Left(s[0], ack), ack, nxt))
  }

  lemma {:induction false} InsertOrdered(s: seq<SackBlock>, b: SackBlock, lo: nat, ack: u32, nxt: u32)
    requires Ordered(s, lo, ack, nxt) && Passes(b, ack, nxt) && lo <= Left(b, ack)
    ensures Ordered(InsertBlock(s, b), lo, ack, nxt)
    ensures forall x :: x in InsertBlock(s, b) <==> x == b || x in s
    decreases |s|
  {
    if s != [] {
      if SeqGreater(s[0].left, b.left) {
        assert ([b] + s)[1..] == s;
      } else {
        InsertOrdered(s[1..], b, Left(s[0], ack), ack, nxt);
        assert ([s[0]] + InsertBlock(s[1..], b))[1..] == InsertBlock(s[1..], b);
        assert s == [s[0]] + s[1..];
      }
    }
  }

  lemma {:induction false} SortOrders(s: seq<SackBlock>, ack: u32, nxt: u32)
    requires forall b | b in s :: Passes(b, ack, nxt)
    ensures Ordered(SortBlocks(s), 0, ack, nxt)
    ensures forall x :: x in SortBlocks(s) <==> x in s
    decreases |s|
  {
    if s != [] {
      SortOrders(s[1..], ack, nxt);
      InsertOrdered(SortBlocks(s[1..]), s[0], 0, ack, nxt);
      assert s == [s[0]] + s[1..];
    }
  }

  // ---------------------------------------------------------------- merge

  /** The merge loop from its current last block on. */
  function Merge(last: SackBlock, rest: seq<SackBlock>): seq<SackBlock>
    decreases |rest|
  {
    if rest == [] then [last]
    else if !SeqGreater(rest[0].left, last.right)
    then Merge(last.(right := SeqMax(last.right, rest[0].right)), rest[1..])
    else [last] + Merge(rest[0], rest[1..])
  }

  /** The test of the marking loop. */
  predicate Contains(b: SackBlock, start: u32, end: u32) {
    SeqLessOrEqual(b.left, start) && SeqLessOrEqual(end, b.right)
  }

  predicate AnyContains(bs: seq<SackBlock>, start: u32, end: u32) {
    bs != [] && (Contains(bs[0], start, end) || AnyContains(bs[1..], start, end))
  }

  /** Offset `o` lies in some true block. */
  predicate InUnion(bs: seq<SackBlock>, ack: u32, nxt: u32, o: nat) {
    bs != [] && ((TrueBlock(bs[0], ack, nxt) && Left(bs[0], ack) <= o < Right(bs[0], ack))
                 || InUnion(bs[1..], ack, nxt, o))
  }

  lemma {:induction false} UnionMeans(bs: seq<SackBlock>, ack: u32, nxt: u32, o: nat)
    ensures InUnion(bs, ack, nxt, o) <==>
            exists b | b in bs :: TrueBlock(b, ack, nxt) && Left(b, ack) <= o < Right(b, ack)
    decreases |bs|
  {
    if bs != [] {
      UnionMeans(bs[1..], ack, nxt, o);
      assert bs == [bs[0]] + bs[1..];
    }
  }

  /** Nothing in an ordered list lies below its lower bound. */
  lemma {:induction false} UnionAbove(bs: seq<SackBlock>, lo: nat, ack: u32, nxt: u32, o: nat)
    requires Ordered(bs, lo, ack, nxt) && InUnion(bs, ack, nxt, o)
    ensures lo <= o
    decreases |bs|
  {
    if bs != [] && !(TrueBlock(bs[0], ack, nxt) && Left(bs[0], ack) <= o < Right(bs[0], ack)) {
      UnionAbove(bs[1..], Left(bs[0], ack), ack, nxt, o);
    }
  }

  /** The range [x, y) as the entries have it: inside the flight. */
  predicate Inside(x: nat, y: nat, ack: u32, nxt: u32) { x < y <= Sub(nxt, ack) < HALF }

  lemma ContainsTrue(b: SackBlock, ack: u32, nxt: u32, x: nat, y: nat)
    requires Inside(x, y, ack, nxt) && TrueBlock(b, ack, nxt)
    ensures Contains(b, At(ack, x), At(ack, y)) <==> Left(b, ack) <= x && y <= Right(b, ack)
  {
    OffsetOf(ack, x);
    OffsetOf(ack, y);
  }

  lemma ContainsFar(b: SackBlock, ack: u32, nxt: u32, x: nat, y: nat)
    requires Inside(x, y, ack, nxt) && Far(b, ack, nxt)
    ensures !Contains(b, At(ack, x), At(ack, y))
  {
    OffsetOf(ack, x);
  }

  lemma OffsetOf(ack: u32, x: nat)
    requires x < MODULUS
    ensures Sub(At(ack, x), ack) == x
  {
  }

  /** Once the last block is far, everything after it is far and is merged into it. */
  lemma {:induction false} MergeFar(last: SackBlock, rest: seq<SackBlock>, lo: nat, ack: u32, nxt: u32, x: nat, y: nat)
    requires Far(last, ack, nxt) && Left(last, ack) <= lo && Right(last, ack) < lo + HALF && Ordered(rest, lo, ack, nxt)
    requires Inside(x, y, ack, nxt)
    ensures Merge(last, rest) != [] && !AnyContains(Merge(last, rest), At(ack, x), At(ack, y))
    ensures forall o: nat | o < y :: !InUnion(rest, ack, nxt, o)
    decreases |rest|
  {
    if rest == [] {
      ContainsFar(last, ack, nxt, x, y);
      assert [last][1..] == [];
    } else {
      PassesExactly(rest[0], ack, nxt);
      assert Far(rest[0], ack, nxt);
      var grown := last.(right := SeqMax(last.right, rest[0].right));
      MergeFar(grown, rest[1..], Left(rest[0], ack), ack, nxt, x, y);
      forall o: nat | o < y
        ensures !InUnion(rest, ack, nxt, o)
      {
        assert !InUnion(rest[1..], ack, nxt, o);
      }
    }
  }

  /** Every offset of [x, y) is in the last block or in a true block after it. */
  ghost predicate AllIn(last: SackBlock, rest: seq<SackBlock>, ack: u32, nxt: u32, x: nat, y: nat) {
    forall o: nat | x <= o < y :: Left(last, ack) <= o < Right(last, ack) || InUnion(rest, ack, nxt, o)
  }

  /** Merging keeps the union, and separated blocks cannot share a range. */
  lemma {:induction false} MergeTrue(last: SackBlock, rest: seq<SackBlock>, ack: u32, nxt: u32, x: nat, y: nat)
    requires TrueBlock(last, ack, nxt) && Ordered(rest, Left(last, ack), ack, nxt) && Inside(x, y, ack, nxt)
    ensures AnyContains(Merge(last, rest), At(ack, x), At(ack, y)) <==> AllIn(last, rest, ack, nxt, x, y)
    decreases |rest|, 0
  {
    hide Contains;
    ContainsTrue(last, ack, nxt, x, y);
    if rest == [] {
      assert [last][1..] == [];
      EndsIn(last, rest, ack, nxt, x, y);
    } else {
      PassesExactly(rest[0], ack, nxt);
      MergeStep(last, rest[0], ack, nxt);
      if !SeqGreater(rest[0].left, last.right) {
        var grown := last.(right := SeqMax(last.right, rest[0].right));
        OrderedWeaken(rest[1..], Left(rest[0], ack), Left(last, ack), ack, nxt);
        MergeTrue(grown, rest[1..], ack, nxt, x, y);
        GrownIsUnion(last, rest, ack, nxt, x, y);
      } else {
        var tail := Merge(rest[0], rest[1..]);
        assert ([last] + tail)[1..] == tail;
        MergeTail(last, rest, ack, nxt, x, y);
        Separated(last, rest, Left(rest[0], ack), ack, nxt, x, y);
      }
    }
  }

  /** What the blocks behind a gap contain. */
  lemma MergeTail(last: SackBlock, rest: seq<SackBlock>, ack: u32, nxt: u32, x: nat, y: nat)
    requires rest != [] && Ordered(rest, Left(last, ack), ack, nxt) && Inside(x, y, ack, nxt)
    ensures AnyContains(Merge(rest[0], rest[1..]), At(ack, x), At(ack, y)) <==> AllInRest(rest, ack, nxt, x, y)
    decreases |rest| - 1, 1
  {
    PassesExactly(rest[0], ack, nxt);
    if TrueBlock(rest[0], ack, nxt) {
      MergeTrue(rest[0], rest[1..], ack, nxt, x, y);
      FirstThenRest(rest, ack, nxt, x, y);
    } else {
      MergeFar(rest[0], rest[1..], Left(rest[0], ack), ack, nxt, x, y);
      assert !InUnion(rest[1..], ack, nxt, x);
      assert !InUnion(rest, ack, nxt, x);
    }
  }

  lemma OrderedWeaken(s: seq<SackBlock>, lo: nat, lower: nat, ack: u32, nxt: u32)
    requires Ordered(s, lo, ack, nxt) && lower <= lo
    ensures Ordered(s, lower, ack, nxt)
  {
  }

  /** The comparisons of the merge loop, in offsets. */
  lemma MergeStep(last: SackBlock, b: SackBlock, ack: u32, nxt: u32)
    requires TrueBlock(last, ack, nxt) && Passes(b, ack, nxt) && Sub(nxt, ack) < HALF && Left(last, ack) <= Left(b, ack)
    ensures SeqGreater(b.left, last.right) <==> Left(b, ack) > Right(last, ack)
    ensures !SeqGreater(b.left, last.right) ==> TrueBlock(b, ack, nxt)
    ensures TrueBlock(b, ack, nxt) ==> Sub(SeqMax(last.right, b.right), ack) == Max(Right(last, ack), Right(b, ack))
  {
    PassesExactly(b, ack, nxt);
  }

  lemma EndsIn(last: SackBlock, rest: seq<SackBlock>, ack: u32, nxt: u32, x: nat, y: nat)
    requires rest == [] && x < y
    ensures AllIn(last, rest, ack, nxt, x, y) <==> Left(last, ack) <= x && y <= Right(last, ack)
  {
    if AllIn(last, rest, ack, nxt, x, y) {
      assert !InUnion(rest, ack, nxt, x) && !InUnion(rest, ack, nxt, y - 1);
    }
  }

  lemma GrownIsUnion(last: SackBlock, rest: seq<SackBlock>, ack: u32, nxt: u32, x: nat, y: nat)
    requires rest != [] && TrueBlock(last, ack, nxt) && TrueBlock(rest[0], ack, nxt)
    requires Left(last, ack) <= Left(rest[0], ack) <= Right(last, ack)
    requires Sub(SeqMax(last.right, rest[0].right), ack) == Max(Right(last, ack), Right(rest[0], ack))
    ensures AllIn(last.(right := SeqMax(last.right, rest[0].right)), rest[1..], ack, nxt, x, y)
            <==> AllIn(last, rest, ack, nxt, x, y)
  {
    hide SeqMax, Sub;
    var grown := last.(right := SeqMax(last.right, rest[0].right));
    forall o: nat
      ensures (Left(grown, ack) <= o < Right(grown, ack) || InUnion(rest[1..], ack, nxt, o))
         <==> (Left(last, ack) <= o < Right(last, ack) || InUnion(rest, ack, nxt, o))
    {
    }
  }

  ghost predicate AllInRest(rest: seq<SackBlock>, ack: u32, nxt: u32, x: nat, y: nat) {
    forall o: nat | x <= o < y :: InUnion(rest, ack, nxt, o)
  }

  lemma FirstThenRest(rest: seq<SackBlock>, ack: u32, nxt: u32, x: nat, y: nat)
    requires rest != []
    ensures TrueBlock(rest[0], ack, nxt) ==>
            (AllIn(rest[0], rest[1..], ack, nxt, x, y) <==> AllInRest(rest, ack, nxt, x, y))
  {
    if TrueBlock(rest[0], ack, nxt) {
      forall o: nat
        ensures InUnion(rest, ack, nxt, o)
                <==> Left(rest[0], ack) <= o < Right(rest[0], ack) || InUnion(rest[1..], ack, nxt, o)
      {
      }
    }
  }

  /** A gap in front of the rest: a covered range lies on one side of it. */
  lemma Separated(last: SackBlock, rest: seq<SackBlock>, lo: nat, ack: u32, nxt: u32, x: nat, y: nat)
    requires Ordered(rest, lo, ack, nxt) && lo > Right(last, ack) && x < y
    ensures AllIn(last, rest, ack, nxt, x, y) <==>
            (Left(last, ack) <= x && y <= Right(last, ack)) || AllInRest(rest, ack, nxt, x, y)
  {
    var r := Right(last, ack);
    if AllIn(last, rest, ack, nxt, x, y) {
      assert Left(last, ack) <= x < r || InUnion(rest, ack, nxt, x);
      if InUnion(rest, ack, nxt, x) {
        UnionAbove(rest, lo, ack, nxt, x);
        assert AllInRest(rest, ack, nxt, x, y);
      } else if r < y {
        assert Left(last, ack) <= r < r || InUnion(rest, ack, nxt, r);
        UnionAbove(rest, lo, ack, nxt, r);
      }
    }
  }

  // ---------------------------------------------------------------- the whole

  /** Every data entry lies in the flight above the ACK. */
  predicate InFlight(e: Pending, ack: u32, nxt: u32) {
    e.IsData() ==> e.payload != [] && Sub(e.start, ack) + |e.payload| <= Sub(nxt, ack)
  }

  /** The marking test on the merged list decides the set view. */
  lemma MarksAreExact(e: Pending, ack: u32, nxt: u32, blocks: seq<SackBlock>, sorted: seq<SackBlock>)
    requires Sub(nxt, ack) < HALF && InFlight(e, ack, nxt) && e.IsData()
    requires Ordered(sorted, 0, ack, nxt) && (forall b :: b in sorted <==> b in blocks && Passes(b, ack, nxt))
    ensures Covered(e, ack, nxt, blocks) <==>
            sorted != [] && AnyContains(Merge(sorted[0], sorted[1..]), e.start, e.End())
  {
    hide Merge, AnyContains, Passes, Covered, At;
    var x := Sub(e.start, ack);
    var y := x + |e.payload|;
    PositionOfEntry(e.start, ack, |e.payload|);
    CoveredIsUnion(e, ack, nxt, blocks, sorted);
    if sorted == [] {
      assert !InUnion(sorted, ack, nxt, x);
    } else {
      MergeTail(SackBlock(ack, ack), sorted, ack, nxt, x, y);
    }
  }

  lemma PositionOfEntry(start: u32, ack: u32, n: nat)
    ensures At(ack, Sub(start, ack)) == start && At(ack, Sub(start, ack) + n) == At(start, n)
  {
  }

  /** The byte `k` of an entry at offset `x` is covered exactly when `x + k` is in the union. */
  lemma ByteIsInUnion(start: u32, k: nat, ack: u32, nxt: u32, blocks: seq<SackBlock>, sorted: seq<SackBlock>)
    requires Sub(nxt, ack) < HALF && Sub(start, ack) + k < Sub(nxt, ack)
    requires forall b :: b in sorted <==> b in blocks && Passes(b, ack, nxt)
    ensures Reported(At(start, k), ack, nxt, blocks) <==> InUnion(sorted, ack, nxt, Sub(start, ack) + k)
  {
    hide Passes, TrueBlock, Sub, At;
    var o := Sub(start, ack) + k;
    UnionMeans(sorted, ack, nxt, o);
    PositionOfEntry(start, ack, k);
    OffsetOf(ack, o);
    forall b
      ensures TrueBlock(b, ack, nxt) ==> Passes(b, ack, nxt)
    {
      PassesExactly(b, ack, nxt);
    }
  }

  lemma CoveredIsUnion(e: Pending, ack: u32, nxt: u32, blocks: seq<SackBlock>, sorted: seq<SackBlock>)
    requires Sub(nxt, ack) < HALF && InFlight(e, ack, nxt) && e.IsData()
    requires forall b :: b in sorted <==> b in blocks && Passes(b, ack, nxt)
    ensures Covered(e, ack, nxt, blocks)
            <==> AllInRest(sorted, ack, nxt, Sub(e.start, ack), Sub(e.start, ack) + |e.payload|)
  {
    hide Passes, Reported, Sub, At, InUnion;
    var x := Sub(e.start, ack);
    if Covered(e, ack, nxt, blocks) {
      forall o: nat | x <= o < x + |e.payload|
        ensures InUnion(sorted, ack, nxt, o)
      {
        ByteIsInUnion(e.start, o - x, ack, nxt, blocks, sorted);
        assert Reported(At(e.start, o - x), ack, nxt, blocks);
      }
    }
    if AllInRest(sorted, ack, nxt, x, x + |e.payload|) {
      forall k | 0 <= k < |e.payload|
        ensures Reported(At(e.start, k), ack, nxt, blocks)
      {
        ByteIsInUnion(e.start, k, ack, nxt, blocks, sorted);
      }
    }
  }

  // ---------------------------------------------------------------- the loops

  method FilterBlocks(blocks: seq<SackBlock>, ack: u32, nxt: u32) returns (valid: seq<SackBlock>)
    ensures forall b :: b in valid <==> b in blocks && Passes(b, ack, nxt)
  {
    hide Passes;
    valid := [];
    for i := 0 to |blocks|
      invariant forall b :: b in valid <==> b in blocks[..i] && Passes(b, ack, nxt)
    {
      var b := blocks[i];
      assert blocks[..i + 1] == blocks[..i] + [b];
      if Passes(b, ack, nxt) {
        valid := valid + [b];
      }
    }
    assert blocks[..|blocks|] == blocks;
  }

  method MergeBlocks(sorted: seq<SackBlock>) returns (merged: seq<SackBlock>)
    requires sorted != []
    ensures merged == Merge(sorted[0], sorted[1..])
  {
    hide SeqGreater, SeqMax;
    merged := [sorted[0]];
    for i := 1 to |sorted|
      invariant merged != []
      invariant merged[..|merged| - 1] + Merge(merged[|merged| - 1], sorted[i..]) == Merge(sorted[0], sorted[1..])
    {
      var n := |merged| - 1;
      var front, last, b := merged[..n], merged[n], sorted[i];
      assert sorted[i..][1..] == sorted[i + 1..];
      if !SeqGreater(b.left, last.right) {
        merged := front + [last.(right := SeqMax(last.right, b.right))];
      } else {
        assert front + ([last] + Merge(b, sorted[i + 1..])) == merged + Merge(b, sorted[i + 1..]);
        merged := merged + [b];
      }
    }
    assert sorted[|sorted|..] == [];
    assert merged[..|merged| - 1] + [merged[|merged| - 1]] == merged;
  }

  method AnyBlockContains(merged: seq<SackBlock>, start: u32, end: u32) returns (any: bool)
    ensures any == AnyContains(merged, start, end)
  {
    hide Contains;
    for i := 0 to |merged|
      invariant AnyContains(merged[i..], start, end) == AnyContains(merged, start, end)
    {
      assert merged[i..][1..] == merged[i + 1..];
      if Contains(merged[i], start, end) {
        return true;
      }
    }
    any := false;
  }

  lemma {:induction false} MarkedPrefix(pending: seq<Pending>, i: nat, ack: u32, nxt: u32, blocks: seq<SackBlock>)
    requires i < |pending|
    ensures |MarkSacked(pending, ack, nxt, blocks)| == |pending|
    ensures MarkSacked(pending[..i + 1], ack, nxt, blocks) ==
            MarkSacked(pending[..i], ack, nxt, blocks) + [MarkEntry(pending[i], ack, nxt, blocks)]
    decreases |pending|
  {
    if i > 0 {
      MarkedPrefix(pending[1..], i - 1, ack, nxt, blocks);
      assert pending[..i + 1][1..] == pending[1..][..i];
      assert pending[..i][1..] == pending[1..][..i - 1];
    } else {
      assert pending[..0] == [] && pending[..1] == [pending[0]];
      assert [pending[0]][1..] == [];
      if |pending| > 1 {
        MarkedPrefix(pending[1..], 0, ack, nxt, blocks);
      } else {
        assert pending[1..] == [];
      }
    }
  }

  lemma {:induction false} NothingMarked(pending: seq<Pending>, ack: u32, nxt: u32, blocks: seq<SackBlock>)
    requires Sub(nxt, ack) < HALF && forall e | e in pending :: InFlight(e, ack, nxt)
    requires forall b | b in blocks :: !Passes(b, ack, nxt)
    ensures MarkSacked(pending, ack, nxt, blocks) == pending
    decreases |pending|
  {
    if pending != [] {
      NothingMarked(pending[1..], ack, nxt, blocks);
      if pending[0].IsData() {
        MarksAreExact(pending[0], ack, nxt, blocks, []);
      }
    }
  }

  /** The source's algorithm computes the set view. */
  method ApplyBlocks(pending: seq<Pending>, ack: u32, nxt: u32, blocks: seq<SackBlock>) returns (marked: seq<Pending>)
    requires Sub(nxt, ack) < HALF && forall e | e in pending :: InFlight(e, ack, nxt)
    ensures marked == MarkSacked(pending, ack, nxt, blocks)
  {
    hide Passes, Covered, Merge, AnyContains, InFlight;
    var valid := FilterBlocks(blocks, ack, nxt);
    if valid == [] {
      NothingMarked(pending, ack, nxt, blocks);
      return pending;
    }
    SortOrders(valid, ack, nxt);
    var sorted := SortBlocks(valid);
    assert sorted != [] by { assert valid[0] in sorted; }
    var merged := MergeBlocks(sorted);
    marked := [];
    for i := 0 to |pending|
      invariant marked == MarkSacked(pending[..i], ack, nxt, blocks)
    {
      var e := pending[i];
      MarkedPrefix(pending, i, ack, nxt, blocks);
      if e.IsData() {
        MarksAreExact(e, ack, nxt, blocks, sorted);
        if !e.sacked {
          var any := AnyBlockContains(merged, e.start, e.End());
          if any {
            e := e.(sacked := true);
          }
        }
      }
      marked := marked + [e];
    }
    assert pending[..|pending|] == pending;
  }
}
