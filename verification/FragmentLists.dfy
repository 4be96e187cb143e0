/** The loops of the reassembly buffer, on fragments as they are stored. */
module FragmentLists {
  import opened Primitives
  import opened SequenceSpace
  import opened Reassembly
  import opened TcpTypes
  import opened Receiving
  import opened ReceiveInvariant

  function RunOf(f: Fragment, base: u32): Run { Run(Sub(f.start, base), f.payload) }

  lemma {:induction false} RunsAppend(a: seq<Run>, b: seq<Run>, base: u32)
    ensures FromRuns(a + b, base) == FromRuns(a, base) + FromRuns(b, base)
    decreases |a|
  {
    if a == [] {
      assert a + b == b;
    } else {
      assert (a + b)[1..] == a[1..] + b;
      RunsAppend(a[1..], b, base);
    }
  }

  lemma {:induction false} ToRunsAppend(a: seq<Fragment>, b: seq<Fragment>, base: u32)
    ensures ToRuns(a + b, base) == ToRuns(a, base) + ToRuns(b, base)
    decreases |a|
  {
    if a == [] {
      assert a + b == b;
    } else {
      assert (a + b)[1..] == a[1..] + b;
      ToRunsAppend(a[1..], b, base);
    }
  }

  // ---------------------------------------------------------------- the gaps

  method CutOne(g: Gap, fragment: Run) returns (parts: seq<Gap>)
    ensures parts == CutGap(g, fragment)
  {
    if fragment.End() <= g.lo || fragment.off >= g.hi {
      return [g];
    }
    parts := [];
    if fragment.off > g.lo {
      parts := parts + [Gap(g.lo, fragment.off)];
    }
    if fragment.End() < g.hi {
      parts := parts + [Gap(fragment.End(), g.hi)];
    }
  }

  method CutEvery(gaps: seq<Gap>, fragment: Run) returns (next: seq<Gap>)
    ensures next == CutGaps(gaps, fragment)
  {
    hide CutGap;
    next := [];
    assert gaps[0..] == gaps;
    for i := 0 to |gaps|
      invariant next + CutGaps(gaps[i..], fragment) == CutGaps(gaps, fragment)
    {
      assert gaps[i..][1..] == gaps[i + 1..];
      var parts := CutOne(gaps[i], fragment);
      ghost var rest := CutGaps(gaps[i + 1..], fragment);
      assert next + (parts + rest) == (next + parts) + rest;
      next := next + parts;
    }
  }

  method SubtractFragments(fs: seq<Fragment>, base: u32, off: nat, len: nat) returns (gaps: seq<Gap>)
    ensures gaps == CutAll([Gap(off, off + len)], ToRuns(fs, base))
  {
    hide CutGaps;
    gaps := [Gap(off, off + len)];
    assert fs[0..] == fs;
    for i := 0 to |fs|
      invariant CutAll(gaps, ToRuns(fs[i..], base)) == CutAll([Gap(off, off + len)], ToRuns(fs, base))
    {
      assert fs[i..][1..] == fs[i + 1..];
      assert ToRuns(fs[i..], base)[1..] == ToRuns(fs[i + 1..], base);
      gaps := CutEvery(gaps, RunOf(fs[i], base));
    }
  }

  // ---------------------------------------------------------------- the pieces

  lemma PiecesStep(gs: seq<Gap>, off: nat, data: seq<u8>, room: nat)
    requires gs != [] && GapChain(gs, off, off + |data|)
    ensures var g := gs[0];
            && GapChain(gs[1..], off, off + |data|) && off <= g.lo <= g.hi <= off + |data|
            && Pieces(gs, off, data, room) ==
               if g.lo == g.hi then Pieces(gs[1..], off, data, room)
               else if room == 0 then []
               else [Run(g.lo, data[g.lo - off..g.hi - off])] + Pieces(gs[1..], off, data, room - 1)
  {
    HeadInside(gs, off, off + |data|);
  }

  lemma AppendOne(fs: seq<Fragment>, done: seq<Run>, r: Run, base: u32)
    ensures fs + FromRuns(done, base) + [Fragment(At(base, r.off), r.data)] == fs + FromRuns(done + [r], base)
  {
    hide FromRuns, At;
    OnePiece(r, base);
    RunsAppend(done, [r], base);
  }

  lemma JoinPieces(done: seq<Run>, r: Run, rest: seq<Run>)
    ensures done + ([r] + rest) == done + [r] + rest
  {
  }

  /** Appends one fragment for every non-empty gap while there is room. */
  method AppendPieces(fs: seq<Fragment>, gaps: seq<Gap>, base: u32, off: nat, data: seq<u8>)
    returns (out: seq<Fragment>)
    requires GapChain(gaps, off, off + |data|)
    ensures out == fs + FromRuns(Pieces(gaps, off, data, Room(ToRuns(fs, base))), base)
  {
    hide At, FromRuns, GapChain, Pieces, ToRuns;
    RunsTotal(fs, base);
    ghost var room := Room(ToRuns(fs, base));
    ghost var all := Pieces(gaps, off, data, room);
    ghost var done: seq<Run> := [];
    out := fs;
    NoRuns(base);
    assert gaps[0..] == gaps;
    assert [] + all == all && out == fs + FromRuns(done, base);
    for i := 0 to |gaps|
      invariant GapChain(gaps[i..], off, off + |data|) && |done| <= room && |out| == |fs| + |done|
      invariant done + Pieces(gaps[i..], off, data, room - |done|) == all
      invariant out == fs + FromRuns(done, base)
    {
      var g := gaps[i];
      assert gaps[i..][1..] == gaps[i + 1..];
      PiecesStep(gaps[i..], off, data, room - |done|);
      if g.lo < g.hi {
        if |out| >= MAX_FRAGMENTS {
          assert done + [] == done;
          return;
        }
        ghost var r := Run(g.lo, data[g.lo - off..g.hi - off]);
        AppendOne(fs, done, r, base);
        JoinPieces(done, r, Pieces(gaps[i + 1..], off, data, room - |done| - 1));
        out := out + [Fragment(At(base, g.lo), data[g.lo - off..g.hi - off])];
        done := done + [r];
      }
    }
    NoPieces(off, data, room - |done|);
    assert gaps[|gaps|..] == [];
    assert done + [] == done;
  }

  lemma NoPieces(off: nat, data: seq<u8>, room: nat)
    ensures Pieces([], off, data, room) == []
  {
  }

  lemma NoRuns(base: u32)
    ensures FromRuns([], base) == []
  {
  }

  lemma OnePiece(r: Run, base: u32)
    ensures FromRuns([r], base) == [Fragment(At(base, r.off), r.data)]
  {
    assert [r][1..] == [];
  }

  lemma HeadInside(gs: seq<Gap>, lo: nat, hi: nat)
    requires gs != [] && GapChain(gs, lo, hi)
    ensures lo <= gs[0].lo <= gs[0].hi <= hi && GapChain(gs[1..], lo, hi)
  {
    GapLower(gs[1..], gs[0].hi, lo, hi);
    ChainEnds(gs[1..], gs[0].hi, hi);
  }

  lemma {:induction false} ChainEnds(gs: seq<Gap>, lo: nat, hi: nat)
    requires GapChain(gs, lo, hi)
    ensures lo <= hi
    decreases |gs|
  {
    if gs != [] {
      ChainEnds(gs[1..], gs[0].hi, hi);
    }
  }

  // ---------------------------------------------------------------- sorting and coalescing

  /** The fragments by their distance from `base`. */
  function SortFragments(fs: seq<Fragment>, base: u32): seq<Fragment> {
    FromRuns(InsertAll([], ToRuns(fs, base)), base)
  }

  lemma {:induction false} InsertAllAppend(rs: seq<Run>, a: seq<Run>, b: seq<Run>)
    ensures InsertAll(rs, a + b) == InsertAll(InsertAll(rs, a), b)
    decreases |a|
  {
    if a == [] {
      assert a + b == b;
    } else {
      assert (a + b)[1..] == a[1..] + b;
      InsertAllAppend(InsertSorted(rs, a[0]), a[1..], b);
    }
  }

  lemma {:induction false} InsertLast(rs: seq<Run>, r: Run, lo: nat, hi: nat)
    requires Spaced(rs, lo, hi, 0) && forall x | x in rs :: x.off <= r.off
    ensures InsertSorted(rs, r) == rs + [r]
    decreases |rs|
  {
    if rs != [] {
      InsertLast(rs[1..], r, rs[0].End(), hi);
    }
  }

  /** Sorting leaves a sorted list alone. */
  lemma {:induction false} SortedStays(done: seq<Run>, rs: seq<Run>, lo: nat, hi: nat)
    requires Spaced(done, 0, lo, 0) && (forall x | x in done :: x.off <= lo) && Spaced(rs, lo, hi, 0) && lo <= hi
    ensures InsertAll(done, rs) == done + rs
    decreases |rs|
  {
    if rs == [] {
      assert done + rs == done;
    } else {
      InsertLast(done, rs[0], 0, lo);
      SpacedSnoc(done, rs[0], 0, lo, rs[0].End());
      SortedStays(done + [rs[0]], rs[1..], rs[0].End(), hi);
      assert done + [rs[0]] + rs[1..] == done + rs;
    }
  }

  lemma {:induction false} SpacedSnoc(rs: seq<Run>, r: Run, lo: nat, mid: nat, hi: nat)
    requires Spaced(rs, lo, mid, 0) && lo <= mid <= r.off && r.data != [] && r.End() <= hi
    ensures Spaced(rs + [r], lo, hi, 0)
    decreases |rs|
  {
    if rs == [] {
      assert rs + [r] == [r] && [r][1..] == [];
    } else {
      assert (rs + [r])[1..] == rs[1..] + [r];
      SpacedSnoc(rs[1..], r, rs[0].End(), mid, hi);
    }
  }

  /** The comparison of end and start numbers is the comparison of distances. */
  lemma TouchIsExact(last: Fragment, f: Fragment, base: u32, hi: nat)
    requires RunOf(last, base).End() <= hi < MODULUS && RunOf(f, base).off <= hi
    ensures last.End() == f.start <==> RunOf(last, base).End() == RunOf(f, base).off
  {
    SubAt(base, last.start, |last.payload|);
    SubInjective(last.End(), f.start, base);
  }

  lemma SubInjective(a: u32, b: u32, base: u32)
    ensures a == b <==> Sub(a, base) == Sub(b, base)
  {
  }

  /** The fragments still to come, seen from the last merged one. */
  predicate Ahead(last: Fragment, fs: seq<Fragment>, base: u32, hi: nat) {
    RunOf(last, base).End() <= hi && Spaced(ToRuns(fs, base), RunOf(last, base).End(), hi, 0)
  }

  function Merged(last: Fragment, fs: seq<Fragment>, base: u32): seq<Fragment> {
    FromRuns(CoalesceFrom(RunOf(last, base), ToRuns(fs, base)), base)
  }

  lemma MergeNext(last: Fragment, fs: seq<Fragment>, base: u32, hi: nat)
    requires fs != [] && hi < MODULUS && Ahead(last, fs, base, hi)
    ensures last.End() == fs[0].start ==>
              var longer := Fragment(last.start, last.payload + fs[0].payload);
              Ahead(longer, fs[1..], base, hi) && Merged(last, fs, base) == Merged(longer, fs[1..], base)
    ensures last.End() != fs[0].start ==>
              Ahead(fs[0], fs[1..], base, hi) && Merged(last, fs, base) == [last] + Merged(fs[0], fs[1..], base)
  {
    hide At, Sub, Fragment.End;
    TouchIsExact(last, fs[0], base, hi);
    assert ToRuns(fs, base) == [RunOf(fs[0], base)] + ToRuns(fs[1..], base);
    assert ToRuns(fs, base)[1..] == ToRuns(fs[1..], base);
    if last.End() != fs[0].start {
      CoalesceKeeps(RunOf(last, base), RunOf(fs[0], base), ToRuns(fs[1..], base), base);
      FragmentOfRun(last, base);
    }
  }

  lemma MergedLast(last: Fragment, base: u32)
    ensures Merged(last, [], base) == [last]
  {
    FragmentOfRun(last, base);
    OnePiece(RunOf(last, base), base);
  }

  lemma NothingToMerge(base: u32)
    ensures FromRuns(Coalesce(ToRuns([], base)), base) == []
  {
  }

  lemma MergeStart(fs: seq<Fragment>, base: u32, hi: nat)
    requires fs != [] && Spaced(ToRuns(fs, base), 0, hi, 0)
    ensures Ahead(fs[0], fs[1..], base, hi)
            && FromRuns(Coalesce(ToRuns(fs, base)), base) == Merged(fs[0], fs[1..], base)
  {
    assert ToRuns(fs, base)[1..] == ToRuns(fs[1..], base);
  }

  method CoalesceFragments(fs: seq<Fragment>, base: u32, ghost hi: nat) returns (merged: seq<Fragment>)
    requires Spaced(ToRuns(fs, base), 0, hi, 0) && hi < MODULUS
    ensures merged == FromRuns(Coalesce(ToRuns(fs, base)), base)
  {
    hide Ahead, Merged, Fragment.End, ToRuns, FromRuns, Spaced, Coalesce;
    merged := [];
    if fs == [] {
      NothingToMerge(base);
      return;
    }
    merged := [fs[0]];
    ghost var all := FromRuns(Coalesce(ToRuns(fs, base)), base);
    MergeStart(fs, base, hi);
    for i := 1 to |fs|
      invariant merged != []
      invariant Ahead(merged[|merged| - 1], fs[i..], base, hi)
      invariant all == merged[..|merged| - 1] + Merged(merged[|merged| - 1], fs[i..], base)
    {
      var n := |merged| - 1;
      var front, last, f := merged[..n], merged[n], fs[i];
      assert fs[i..][1..] == fs[i + 1..];
      MergeNext(last, fs[i..], base, hi);
      if last.End() == f.start {
        merged := front + [Fragment(last.start, last.payload + f.payload)];
        assert merged[..n] == front;
      } else {
        ghost var rest := Merged(f, fs[i + 1..], base);
        assert front + ([last] + rest) == merged + rest;
        merged := merged + [f];
        assert merged[..n + 1] == front + [last];
      }
    }
    var n := |merged| - 1;
    assert fs[|fs|..] == [];
    MergedLast(merged[n], base);
    assert merged[..n] + [merged[n]] == merged;
  }

  lemma FragmentOfRun(f: Fragment, base: u32)
    ensures Fragment(At(base, RunOf(f, base).off), RunOf(f, base).data) == f
  {
  }

  lemma CoalesceKeeps(acc: Run, r: Run, rest: seq<Run>, base: u32)
    requires acc.End() != r.off
    ensures FromRuns(CoalesceFrom(acc, [r] + rest), base)
            == [Fragment(At(base, acc.off), acc.data)] + FromRuns(CoalesceFrom(r, rest), base)
  {
    assert ([r] + rest)[1..] == rest;
    var tail := CoalesceFrom(r, rest);
    assert ([acc] + tail)[1..] == tail;
  }

  // ---------------------------------------------------------------- the whole insertion

  /** `insertReassemblyFragment`, on the list of fragments. */
  method InsertIntoFragments(fs: seq<Fragment>, base: u32, start: u32, payload: seq<u8>, ghost hi: nat)
    returns (out: seq<Fragment>)
    requires Canonical(ToRuns(fs, base), hi) && hi < MODULUS && Sub(start, base) + |payload| <= hi
    ensures out == InsertFragment(fs, base, start, payload)
  {
    hide Coalesce, InsertAll, Pieces, ToRuns, FromRuns, CutAll, Spaced, Sub;
    var off := Sub(start, base);
    ghost var rs := ToRuns(fs, base);
    ghost var ps := NewPieces(rs, off, payload);
    var gaps := SubtractFragments(fs, base, off, |payload|);
    assert gaps == NewGaps(rs, off, payload);
    var list := AppendPieces(fs, gaps, base, off, payload);
    ListIsSorted(fs, base, off, payload, hi);
    var sorted := SortFragments(list, base);
    out := CoalesceFragments(sorted, base, hi);
  }

  /** Sorting the list with the new pieces at its end, in distances. */
  lemma ListIsSorted(fs: seq<Fragment>, base: u32, off: nat, data: seq<u8>, hi: nat)
    requires Canonical(ToRuns(fs, base), hi) && hi < MODULUS && off + |data| <= hi
    ensures var rs := ToRuns(fs, base);
            var ps := NewPieces(rs, off, data);
            var sorted := SortFragments(fs + FromRuns(ps, base), base);
            ToRuns(sorted, base) == InsertAll(rs, ps) && Spaced(ToRuns(sorted, base), 0, hi, 0)
  {
    hide NewPieces, At, Sub, InsertSorted;
    var rs := ToRuns(fs, base);
    var ps := NewPieces(rs, off, data);
    NewPiecesFit(rs, off, data, hi);
    RunsRoundTrip(ps, base, 0, hi, 0);
    ToRunsAppend(fs, FromRuns(ps, base), base);
    InsertAllAppend([], rs, ps);
    SortedStays([], rs, 0, hi);
    assert [] + rs == rs;
    InsertAllMeaning(rs, ps, 0, hi, 0);
    RunsRoundTrip(InsertAll(rs, ps), base, 0, hi, 0);
  }

  /** The bytes of `done`, then what is released from here on. */
  function Onward(done: seq<u8>, r: (seq<u8>, u32, seq<Fragment>)): (seq<u8>, u32, seq<Fragment>) {
    (done + r.0, r.1, r.2)
  }

  lemma ReleaseStep(done: seq<u8>, nxt: u32, fs: seq<Fragment>)
    requires fs != [] && fs[0].start == nxt
    ensures Onward(done, Release(nxt, fs)) == Onward(done + fs[0].payload, Release(At(nxt, |fs[0].payload|), fs[1..]))
  {
    hide At;
    var more := Release(At(nxt, |fs[0].payload|), fs[1..]).0;
    assert done + (fs[0].payload + more) == (done + fs[0].payload) + more;
  }

  lemma ReleaseEnd(done: seq<u8>, nxt: u32, fs: seq<Fragment>)
    requires fs == [] || fs[0].start != nxt
    ensures Onward(done, Release(nxt, fs)) == (done, nxt, fs)
  {
    assert done + [] == done;
  }

  /** `releaseContiguous`, on the list of fragments. */
  method ReleaseFragments(nxt: u32, fs: seq<Fragment>) returns (released: seq<u8>, next: u32, rest: seq<Fragment>)
    ensures (released, next, rest) == Release(nxt, fs)
  {
    hide At, Release, Onward;
    released, next, rest := [], nxt, fs;
    assert Onward([], Release(nxt, fs)) == Release(nxt, fs) by { OnwardFromStart(Release(nxt, fs)); }
    while rest != [] && rest[0].start == next
      invariant Onward(released, Release(next, rest)) == Release(nxt, fs)
      decreases |rest|
    {
      ReleaseStep(released, next, rest);
      released := released + rest[0].payload;
      next := At(next, |rest[0].payload|);
      rest := rest[1..];
    }
    ReleaseEnd(released, next, rest);
  }

  lemma OnwardFromStart(r: (seq<u8>, u32, seq<Fragment>))
    ensures Onward([], r) == r
  {
    assert [] + r.0 == r.0;
  }

  /** The loops of `bufferedReceiveBytes`. */
  method BufferedReceiveBytes(r: RecvState) returns (total: nat)
    ensures total == BufferedBytes(r)
  {
    total := 0;
    assert r.fragments[0..] == r.fragments;
    for i := 0 to |r.fragments|
      invariant total + TotalBytes(r.fragments[i..]) == TotalBytes(r.fragments)
    {
      assert r.fragments[i..][1..] == r.fragments[i + 1..];
      total := total + |r.fragments[i].payload|;
    }
    if r.pendingFin.Some? {
      total := total + 1;
    }
  }

  /** The search for the fragment that holds the byte at `start`. */
  method FindFragment(fs: seq<Fragment>, start: u32) returns (found: Option<u32>)
    ensures found == MostRecent(fs, start)
  {
    hide SeqGreater, SeqLessOrEqual, Fragment.End;
    assert fs[0..] == fs;
    for i := 0 to |fs|
      invariant MostRecent(fs[i..], start) == MostRecent(fs, start)
    {
      assert fs[i..][1..] == fs[i + 1..];
      if SeqLessOrEqual(fs[i].start, start) && SeqGreater(fs[i].End(), start) {
        return Some(fs[i].start);
      }
    }
    found := None;
  }
}
