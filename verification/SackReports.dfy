/** What a receiver reports in SACK blocks: the loops of `generateSackBlocks`, and that every reported byte is held. */
module SackReports {
  import opened Primitives
  import opened SequenceSpace
  import opened Reassembly
  import opened TcpOptions
  import opened TcpTypes
  import opened Receiving
  import opened ReceiveInvariant
  import opened Sending
  import opened FragmentLists

  // ---------------------------------------------------------------- the descending sort

  function InsertDown(s: seq<Fragment>, f: Fragment): seq<Fragment> {
    if s == [] then [f] else if SeqGreater(f.start, s[0].start) then [f] + s else [s[0]] + InsertDown(s[1..], f)
  }

  /** The sort of the source: by start, the highest first. */
  function SortDown(s: seq<Fragment>): seq<Fragment>
    decreases |s|
  {
    if s == [] then [] else InsertDown(SortDown(s[..|s| - 1]), s[|s| - 1])
  }

  /** Fragments in ascending order of their distance from `base`, within the receive buffer. */
  ghost predicate Ascending(s: seq<Fragment>, base: u32) {
    && (forall i | 0 <= i < |s| :: Sub(s[i].start, base) < RECEIVE_CAPACITY)
    && (forall i, j | 0 <= i < j < |s| :: Sub(s[i].start, base) < Sub(s[j].start, base))
  }

  lemma GreaterByDistance(a: u32, b: u32, base: u32)
    requires Sub(a, base) < RECEIVE_CAPACITY && Sub(b, base) < RECEIVE_CAPACITY
    ensures SeqGreater(a, b) <==> Sub(a, base) > Sub(b, base)
  {
    SubSub(base, a, b);
  }

  lemma {:induction false} ReverseSnoc(front: seq<Fragment>, last: Fragment)
    ensures Reverse(front + [last]) == [last] + Reverse(front)
    decreases |front|
  {
    if front == [] {
      assert front + [last] == [last] && [last][1..] == [];
    } else {
      assert (front + [last])[1..] == front[1..] + [last];
      ReverseSnoc(front[1..], last);
    }
  }

  lemma AscendingFront(s: seq<Fragment>, base: u32)
    requires Ascending(s, base) && s != []
    ensures Ascending(s[..|s| - 1], base)
    ensures |s| > 1 ==> Reverse(s[..|s| - 1]) != [] && SeqGreater(s[|s| - 1].start, Reverse(s[..|s| - 1])[0].start)
  {
    hide SeqGreater, Sub;
    if |s| > 1 {
      GreaterByDistance(s[|s| - 1].start, s[|s| - 2].start, base);
    }
  }

  lemma {:induction false} SortReverses(s: seq<Fragment>, base: u32)
    requires Ascending(s, base)
    ensures SortDown(s) == Reverse(s)
    decreases |s|
  {
    hide SeqGreater, Ascending, Reverse;
    if s == [] {
      NothingReversed();
    } else {
      var front, last := s[..|s| - 1], s[|s| - 1];
      AscendingFront(s, base);
      SortReverses(front, base);
      ReverseSnoc(front, last);
      assert front + [last] == s;
    }
  }

  lemma NothingReversed()
    ensures Reverse<Fragment>([]) == []
  {
  }

  lemma {:induction false} CanonicalAscends(fs: seq<Fragment>, base: u32, hi: nat)
    requires Canonical(ToRuns(fs, base), hi) && hi <= RECEIVE_CAPACITY
    ensures Ascending(fs, base)
  {
    hide Spaced, Sub;
    var rs := ToRuns(fs, base);
    forall i: nat | i < |fs|
      ensures |rs| == |fs| && rs[i] == RunOf(fs[i], base)
    {
      RunAt(fs, base, i);
    }
    forall i: nat | i < |fs|
      ensures Sub(fs[i].start, base) < RECEIVE_CAPACITY
    {
      RunAt(fs, base, i);
      SpacedAt(rs, 0, hi, 1, i) by { RunsAreSpaced(fs, base, hi); }
    }
    forall i: nat, j: nat | i < j < |fs|
      ensures Sub(fs[i].start, base) < Sub(fs[j].start, base)
    {
      RunAt(fs, base, i);
      RunAt(fs, base, j);
      SpacedPairs(rs, 0, hi, 1, i, j) by { RunsAreSpaced(fs, base, hi); }
    }
  }

  lemma RunsAreSpaced(fs: seq<Fragment>, base: u32, hi: nat)
    requires Canonical(ToRuns(fs, base), hi)
    ensures Spaced(ToRuns(fs, base), 0, hi, 1)
  {
  }

  lemma {:induction false} RunAt(fs: seq<Fragment>, base: u32, i: nat)
    requires i < |fs|
    ensures |ToRuns(fs, base)| == |fs| && ToRuns(fs, base)[i] == RunOf(fs[i], base)
    decreases |fs|
  {
    RunsTotal(fs, base);
    if i > 0 {
      RunAt(fs[1..], base, i - 1);
    }
  }

  // ---------------------------------------------------------------- the loops

  /** The search for the fragment inserted last. */
  method FindStart(fs: seq<Fragment>, start: u32) returns (i: nat)
    ensures i == FragmentIndex(fs, start)
  {
    i := 0;
    assert fs[0..] == fs;
    while i < |fs| && fs[i].start != start
      invariant i <= |fs|
      invariant FragmentIndex(fs, start) == i + FragmentIndex(fs[i..], start)
    {
      assert fs[i..][1..] == fs[i + 1..];
      i := i + 1;
    }
  }

  /** All fragments but the one at `k`. */
  function Others(fs: seq<Fragment>, k: nat): seq<Fragment> { if k < |fs| then fs[..k] + fs[k + 1..] else fs }

  method CollectOthers(fs: seq<Fragment>, k: nat) returns (rest: seq<Fragment>)
    ensures rest == Others(fs, k)
  {
    rest := [];
    for i := 0 to |fs|
      invariant rest == if i <= k then fs[..i] else fs[..k] + fs[k + 1..i]
    {
      if i != k {
        rest := rest + [fs[i]];
      }
    }
  }

  method FirstFour(ordered: seq<Fragment>) returns (blocks: seq<SackBlock>)
    ensures blocks == Blocks(Take(ordered, 4))
  {
    blocks := [];
    var n := 0;
    while n < |ordered| && |blocks| < 4
      invariant n == |blocks| <= |ordered| && n <= 4
      invariant forall i | 0 <= i < n :: blocks[i] == SackBlock(ordered[i].start, ordered[i].End())
    {
      blocks := blocks + [SackBlock(ordered[n].start, ordered[n].End())];
      n := n + 1;
    }
  }

  /** `generateSackBlocks`. */
  method ReportBlocks(fs: seq<Fragment>, mostRecent: Option<u32>, ghost base: u32, ghost hi: nat)
    returns (blocks: seq<SackBlock>)
    requires Canonical(ToRuns(fs, base), hi) && hi <= RECEIVE_CAPACITY
    ensures blocks == GenerateSackBlocks(fs, mostRecent)
  {
    hide Reverse, SortDown, Canonical, Blocks, Ascending, FragmentIndex;
    var k: nat := |fs|;
    if mostRecent.Some? {
      k := FindStart(fs, mostRecent.value);
    }
    var rest := CollectOthers(fs, k);
    CanonicalAscends(fs, base, hi);
    AscendingWithout(fs, rest, k, base);
    SortReverses(rest, base);
    rest := SortDown(rest);
    blocks := FirstFour(if k < |fs| then [fs[k]] + rest else rest);
  }

  lemma AscendingWithout(fs: seq<Fragment>, rest: seq<Fragment>, k: nat, base: u32)
    requires Ascending(fs, base) && rest == Others(fs, k)
    ensures Ascending(rest, base)
  {
    hide Sub;
    if k < |fs| {
      forall i | 0 <= i < |rest|
        ensures rest[i] == fs[if i < k then i else i + 1]
      {
      }
    }
  }

  // ---------------------------------------------------------------- what is reported

  /** The block is one of the fragments. */
  predicate Reports(b: SackBlock, f: Fragment) { b == SackBlock(f.start, f.End()) }

  /** The order of the report: the fragment just extended, then the others from the highest down. */
  function ReportOrder(fs: seq<Fragment>, k: nat): seq<Fragment> {
    if k < |fs| then [fs[k]] + Reverse(Others(fs, k)) else Reverse(fs)
  }

  lemma ReversedIsIn(s: seq<Fragment>, i: nat)
    requires i < |s|
    ensures |Reverse(s)| == |s| && Reverse(s)[i] in s
  {
    hide Reverse;
    assert Reverse(s)[i] == s[|s| - 1 - i];
  }

  lemma OthersAreIn(fs: seq<Fragment>, k: nat, f: Fragment)
    requires f in Others(fs, k)
    ensures f in fs
  {
  }

  lemma OrderIsFragments(fs: seq<Fragment>, k: nat, i: nat)
    requires i < |ReportOrder(fs, k)|
    ensures ReportOrder(fs, k)[i] in fs
  {
    hide Reverse, Others;
    if k >= |fs| {
      ReversedIsIn(fs, i);
    } else if i > 0 {
      ReversedIsIn(Others(fs, k), i - 1);
      OthersAreIn(fs, k, Reverse(Others(fs, k))[i - 1]);
    }
  }

  /** At most four blocks, each of them a fragment; the fragment just extended comes first. */
  lemma BlocksAreFragments(fs: seq<Fragment>, mostRecent: Option<u32>, b: SackBlock)
    ensures var bs := GenerateSackBlocks(fs, mostRecent);
            && |bs| <= 4 && (b in bs ==> exists f | f in fs :: Reports(b, f))
            && (mostRecent.Some? && FragmentIndex(fs, mostRecent.value) < |fs| ==>
                  bs != [] && bs[0].left == mostRecent.value)
  {
    hide Reverse;
    var k := if mostRecent.Some? then FragmentIndex(fs, mostRecent.value) else |fs|;
    var ordered := ReportOrder(fs, k);
    var bs := GenerateSackBlocks(fs, mostRecent);
    assert bs == Blocks(Take(ordered, 4));
    if b in bs {
      var i :| 0 <= i < |bs| && bs[i] == b;
      OrderIsFragments(fs, k, i);
      assert Reports(b, ordered[i]);
    }
  }

  lemma {:induction false} FragmentIsHeld(fs: seq<Fragment>, base: u32, hi: nat, f: Fragment, o: nat)
    requires Spaced(ToRuns(fs, base), 0, hi, 0) && f in fs && Sub(f.start, base) <= o < Sub(f.start, base) + |f.payload|
    ensures ByteAt(ToRuns(fs, base), o).Some?
    decreases |fs|
  {
    if f != fs[0] {
      assert f in fs[1..];
      SpacedWeaken(ToRuns(fs[1..], base), ToRuns(fs, base)[0].End(), hi, 0, 0, hi, 0) by {
        assert ToRuns(fs, base)[1..] == ToRuns(fs[1..], base);
      }
      FragmentIsHeld(fs[1..], base, hi, f, o);
    }
  }

  /** Every reported byte is in the buffer. */
  lemma ReportedIsHeld(r: RecvState, opt: Negotiated, mostRecent: Option<u32>, b: SackBlock, o: nat)
    requires BufferValid(r, opt) && b in GenerateSackBlocks(r.fragments, mostRecent)
    requires Sub(b.left, r.nxt) <= o < Sub(b.right, r.nxt)
    ensures Held(r, o).Some?
  {
    hide GenerateSackBlocks, Spaced, ToRuns, ByteAt, At;
    BlocksAreFragments(r.fragments, mostRecent, b);
    var f :| f in r.fragments && Reports(b, f);
    SubAt(r.nxt, f.start, |f.payload|) by { assert |f.payload| < MODULUS by { FragmentFits(r, opt, f); } }
    FragmentFits(r, opt, f);
    SpacedWeaken(Runs(r), 0, Limit(opt), 1, 0, Limit(opt), 0) by { RunsAreSpaced(r.fragments, r.nxt, Limit(opt)); }
    FragmentIsHeld(r.fragments, r.nxt, Limit(opt), f, o);
  }

  lemma FragmentFits(r: RecvState, opt: Negotiated, f: Fragment)
    requires BufferValid(r, opt) && f in r.fragments
    ensures Sub(f.start, r.nxt) + |f.payload| <= RECEIVE_CAPACITY
  {
    hide Spaced, ToRuns;
    var i: nat :| i < |r.fragments| && r.fragments[i] == f;
    RunAt(r.fragments, r.nxt, i);
    SpacedAt(Runs(r), 0, Limit(opt), 1, i) by { RunsAreSpaced(r.fragments, r.nxt, Limit(opt)); }
  }

  // ---------------------------------------------------------------- the first block

  /** The fragment holds the byte at distance `o` from `base`. */
  predicate Holds(f: Fragment, base: u32, o: nat) { Sub(f.start, base) <= o < Sub(f.start, base) + |f.payload| }

  /** For a fragment and a byte inside the buffer the two comparisons of the search decide whether it holds it. */
  lemma SearchTest(f: Fragment, base: u32, o: nat)
    requires Sub(f.start, base) + |f.payload| <= RECEIVE_CAPACITY && o < RECEIVE_CAPACITY
    ensures SeqLessOrEqual(f.start, At(base, o)) && SeqGreater(f.End(), At(base, o)) <==> Holds(f, base, o)
  {
    SubAt(base, base, o);
    SubAt(base, f.start, |f.payload|);
    SubSub(base, f.start, At(base, o));
    SubSub(base, f.End(), At(base, o));
  }

  /** The search finds the one fragment that holds the byte. */
  lemma {:induction false} SearchFinds(fs: seq<Fragment>, base: u32, lo: nat, hi: nat, f: Fragment, o: nat)
    requires Spaced(ToRuns(fs, base), lo, hi, 1) && hi <= RECEIVE_CAPACITY && f in fs && Holds(f, base, o)
    ensures MostRecent(fs, At(base, o)) == Some(f.start) && o < hi && lo <= Sub(f.start, base)
    decreases |fs|
  {
    var g, rest := fs[0], fs[1..];
    assert ToRuns(fs, base)[1..] == ToRuns(rest, base);
    var next := Sub(g.start, base) + |g.payload| + 1;
    HeadFits(fs, base, lo, hi);
    if f == g {
      SearchTest(g, base, o);
    } else {
      assert f in rest;
      SearchFinds(rest, base, next, hi, f, o);
      SearchTest(g, base, o);
    }
  }

  lemma HeadFits(fs: seq<Fragment>, base: u32, lo: nat, hi: nat)
    requires fs != [] && Spaced(ToRuns(fs, base), lo, hi, 1)
    ensures lo <= Sub(fs[0].start, base) && Sub(fs[0].start, base) + |fs[0].payload| <= hi
    ensures Spaced(ToRuns(fs[1..], base), Sub(fs[0].start, base) + |fs[0].payload| + 1, hi, 1)
  {
    assert ToRuns(fs, base)[1..] == ToRuns(fs[1..], base);
  }

  /** Fragments have different starts. */
  lemma {:induction false} StartsDiffer(fs: seq<Fragment>, base: u32, lo: nat, hi: nat, f: Fragment, g: Fragment)
    requires Spaced(ToRuns(fs, base), lo, hi, 1) && f in fs && g in fs && f.start == g.start
    ensures f == g && lo <= Sub(f.start, base)
    decreases |fs|
  {
    HeadFits(fs, base, lo, hi);
    var next := Sub(fs[0].start, base) + |fs[0].payload| + 1;
    if f != fs[0] && g != fs[0] {
      assert f in fs[1..] && g in fs[1..];
      StartsDiffer(fs[1..], base, next, hi, f, g);
    } else if f != fs[0] {
      assert f in fs[1..];
      StartsDiffer(fs[1..], base, next, hi, f, f);
    } else if g != fs[0] {
      assert g in fs[1..];
      StartsDiffer(fs[1..], base, next, hi, g, g);
    }
  }

  /** The report puts the named fragment first. */
  lemma NamedFirst(fs: seq<Fragment>, start: u32, f: Fragment)
    requires f in fs && f.start == start && (forall g | g in fs && g.start == start :: g == f)
    ensures var bs := GenerateSackBlocks(fs, Some(start)); bs != [] && bs[0] == SackBlock(f.start, f.End())
  {
    hide Reverse;
    StartIsFound(fs, f);
    var k := FragmentIndex(fs, start);
    assert fs[k] == f;
    assert Take([fs[k]] + Reverse(fs[..k] + fs[k + 1..]), 4)[0] == f;
  }

  lemma {:induction false} StartIsFound(fs: seq<Fragment>, f: Fragment)
    requires f in fs
    ensures FragmentIndex(fs, f.start) < |fs|
    decreases |fs|
  {
    if fs[0].start != f.start {
      assert f in fs[1..];
      StartIsFound(fs[1..], f);
    }
  }

  lemma {:induction false} ReleasedAreOld(nxt: u32, fs: seq<Fragment>, f: Fragment)
    requires f in Release(nxt, fs).2
    ensures f in fs
    decreases |fs|
  {
    if fs != [] && fs[0].start == nxt {
      ReleasedAreOld(At(nxt, |fs[0].payload|), fs[1..], f);
    }
  }
}
