/**
 Out-of-order receive buffer.

 The engine keeps fragments sorted by their distance from `rcv_nxt`.  A `Run` is a fragment
 written with that distance; `ByteAt` is the byte map a list of runs stands for, and
 `InsertRun` is shown to refine the first-arrival-wins union of byte maps.
 */
module Reassembly {
  import opened Primitives

  const MAX_FRAGMENTS: nat := 128
  const RECEIVE_CAPACITY: nat := 262140

  datatype Run = Run(off: nat, data: seq<u8>) {
    function End(): nat { off + |data| }
    predicate Covers(o: nat) { off <= o < End() }
  }

  datatype Gap = Gap(lo: nat, hi: nat)

  // ---------------------------------------------------------------- the algorithm

  /** What is left of a gap once the bytes of `r` are taken out of it. */
  function CutGap(g: Gap, r: Run): seq<Gap> {
    if r.End() <= g.lo || r.off >= g.hi then [g]
    else (if r.off > g.lo then [Gap(g.lo, r.off)] else [])
         + (if r.End() < g.hi then [Gap(r.End(), g.hi)] else [])
  }

  function CutGaps(gs: seq<Gap>, r: Run): seq<Gap> {
    if gs == [] then [] else CutGap(gs[0], r) + CutGaps(gs[1..], r)
  }

  function CutAll(gs: seq<Gap>, rs: seq<Run>): seq<Gap>
    decreases |rs|
  {
    if rs == [] then gs else CutAll(CutGaps(gs, rs[0]), rs[1..])
  }

  /** Ascending, disjoint and inside [lo, hi). */
  predicate GapChain(gs: seq<Gap>, lo: nat, hi: nat) {
    if gs == [] then lo <= hi
    else lo <= gs[0].lo <= gs[0].hi <= hi && GapChain(gs[1..], gs[0].hi, hi)
  }

  /** The new pieces, in ascending order, for as many non-empty gaps as there is room. */
  function Pieces(gs: seq<Gap>, off: nat, data: seq<u8>, room: nat): seq<Run>
    requires GapChain(gs, off, off + |data|)
  {
    if gs == [] then []
    else
      GapLower(gs[1..], gs[0].hi, off, off + |data|);
      if gs[0].lo >= gs[0].hi then Pieces(gs[1..], off, data, room)
      else if room == 0 then []
      else [Run(gs[0].lo, data[gs[0].lo - off..gs[0].hi - off])] + Pieces(gs[1..], off, data, room - 1)
  }

  function InsertSorted(rs: seq<Run>, r: Run): seq<Run> {
    if rs == [] || r.off < rs[0].off then [r] + rs else [rs[0]] + InsertSorted(rs[1..], r)
  }

  function InsertAll(rs: seq<Run>, ps: seq<Run>): seq<Run>
    decreases |ps|
  {
    if ps == [] then rs else InsertAll(InsertSorted(rs, ps[0]), ps[1..])
  }

  function CoalesceFrom(acc: Run, rs: seq<Run>): seq<Run>
    decreases |rs|
  {
    if rs == [] then [acc]
    else if acc.End() == rs[0].off then CoalesceFrom(Run(acc.off, acc.data + rs[0].data), rs[1..])
    else [acc] + CoalesceFrom(rs[0], rs[1..])
  }

  function Coalesce(rs: seq<Run>): seq<Run> {
    if rs == [] then [] else CoalesceFrom(rs[0], rs[1..])
  }

  function Room(rs: seq<Run>): nat { if |rs| < MAX_FRAGMENTS then MAX_FRAGMENTS - |rs| else 0 }

  function NewGaps(rs: seq<Run>, off: nat, data: seq<u8>): (gs: seq<Gap>)
    ensures GapChain(gs, off, off + |data|)
  {
    assert GapChain([Gap(off, off + |data|)], off, off + |data|);
    CutAllMeaning([Gap(off, off + |data|)], rs, off, off + |data|, 0);
    CutAll([Gap(off, off + |data|)], rs)
  }

  function NewPieces(rs: seq<Run>, off: nat, data: seq<u8>): seq<Run> {
    Pieces(NewGaps(rs, off, data), off, data, Room(rs))
  }

  function InsertRun(rs: seq<Run>, off: nat, data: seq<u8>): seq<Run> {
    Coalesce(InsertAll(rs, NewPieces(rs, off, data)))
  }

  // ---------------------------------------------------------------- the meaning

  /** The byte a list of runs holds at distance `o`, if any. */
  function ByteAt(rs: seq<Run>, o: nat): Option<u8> {
    if rs == [] then None
    else if rs[0].Covers(o) then Some(rs[0].data[o - rs[0].off])
    else ByteAt(rs[1..], o)
  }

  predicate InGaps(gs: seq<Gap>, o: nat) {
    gs != [] && (gs[0].lo <= o < gs[0].hi || InGaps(gs[1..], o))
  }

  /** Non-empty runs inside [lo, hi], ascending, with at least `space` free bytes between neighbours. */
  predicate Spaced(rs: seq<Run>, lo: nat, hi: nat, space: nat) {
    rs != [] ==>
      lo <= rs[0].off && rs[0].data != [] && rs[0].End() <= hi && Spaced(rs[1..], rs[0].End() + space, hi, space)
  }

  /** What the buffer holds between calls: sorted, disjoint and never touching, ending by `hi`. */
  predicate Canonical(rs: seq<Run>, hi: nat) { Spaced(rs, 0, hi, 1) }

  function Total(rs: seq<Run>): nat {
    if rs == [] then 0 else |rs[0].data| + Total(rs[1..])
  }

  /** The number of non-empty gaps: each costs one fragment slot. */
  function Wanted(gs: seq<Gap>): nat {
    if gs == [] then 0 else (if gs[0].lo < gs[0].hi then 1 else 0) + Wanted(gs[1..])
  }

  /** The first-arrival-wins union: a byte already held keeps its value. */
  function Union(held: Option<u8>, off: nat, data: seq<u8>, o: nat): Option<u8> {
    if held.Some? then held
    else if off <= o < off + |data| then Some(data[o - off])
    else None
  }

  /** `Spaced` says what it should of any two runs. */
  lemma {:induction false} SpacedPairs(rs: seq<Run>, lo: nat, hi: nat, space: nat, i: nat, j: nat)
    requires Spaced(rs, lo, hi, space) && i < j < |rs|
    ensures lo <= rs[i].off && 0 < |rs[i].data| && rs[i].End() + space <= rs[j].off && rs[j].End() <= hi
    decreases |rs|
  {
    SpacedAt(rs[1..], rs[0].End() + space, hi, space, j - 1);
    if i > 0 {
      SpacedPairs(rs[1..], rs[0].End() + space, hi, space, i - 1, j - 1);
    }
  }

  lemma {:induction false} SpacedAt(rs: seq<Run>, lo: nat, hi: nat, space: nat, i: nat)
    requires Spaced(rs, lo, hi, space) && i < |rs|
    ensures lo <= rs[i].off && 0 < |rs[i].data| && rs[i].End() <= hi
    decreases |rs|
  {
    if i > 0 {
      SpacedAt(rs[1..], rs[0].End() + space, hi, space, i - 1);
    }
  }

  lemma {:induction false} SpacedWeaken(rs: seq<Run>, lo: nat, hi: nat, space: nat, lo': nat, hi': nat, space': nat)
    requires Spaced(rs, lo, hi, space) && lo' <= lo && hi <= hi' && space' <= space
    ensures Spaced(rs, lo', hi', space')
    decreases |rs|
  {
    if rs != [] {
      SpacedWeaken(rs[1..], rs[0].End() + space, hi, space, rs[0].End() + space', hi', space');
    }
  }

  /** Nothing is held outside the bounds. */
  lemma {:induction false} ByteAtBounds(rs: seq<Run>, lo: nat, hi: nat, space: nat, o: nat)
    requires Spaced(rs, lo, hi, space) && ByteAt(rs, o).Some?
    ensures lo <= o < hi
    decreases |rs|
  {
    if !rs[0].Covers(o) {
      ByteAtBounds(rs[1..], rs[0].End() + space, hi, space, o);
    }
  }

  // ---------------------------------------------------------------- gaps

  lemma {:induction false} GapConcat(a: seq<Gap>, b: seq<Gap>, lo: nat, mid: nat, hi: nat, o: nat)
    requires GapChain(a, lo, mid) && GapChain(b, mid, hi)
    ensures GapChain(a + b, lo, hi)
    ensures InGaps(a + b, o) <==> InGaps(a, o) || InGaps(b, o)
    decreases |a|
  {
    if a == [] {
      assert a + b == b;
      GapLower(b, mid, lo, hi);
    } else {
      assert (a + b)[1..] == a[1..] + b;
      GapConcat(a[1..], b, a[0].hi, mid, hi, o);
    }
  }

  lemma GapLower(gs: seq<Gap>, lo: nat, lo': nat, hi: nat)
    requires GapChain(gs, lo, hi) && lo' <= lo
    ensures GapChain(gs, lo', hi)
  {
  }

  lemma CutGapMeaning(g: Gap, r: Run, o: nat)
    requires g.lo <= g.hi
    ensures GapChain(CutGap(g, r), g.lo, g.hi)
    ensures InGaps(CutGap(g, r), o) <==> g.lo <= o < g.hi && !r.Covers(o)
  {
    var a := if r.off > g.lo then [Gap(g.lo, r.off)] else [];
    var b := if r.End() < g.hi then [Gap(r.End(), g.hi)] else [];
    if !(r.End() <= g.lo || r.off >= g.hi) {
      GapConcat(a, b, g.lo, Max(r.off, g.lo), g.hi, o);
    }
  }

  lemma {:induction false} CutGapsMeaning(gs: seq<Gap>, r: Run, lo: nat, hi: nat, o: nat)
    requires GapChain(gs, lo, hi)
    ensures GapChain(CutGaps(gs, r), lo, hi)
    ensures InGaps(CutGaps(gs, r), o) <==> InGaps(gs, o) && !r.Covers(o)
    decreases |gs|
  {
    if gs != [] {
      var g := gs[0];
      CutGapMeaning(g, r, o);
      GapLower(CutGap(g, r), g.lo, lo, g.hi);
      CutGapsMeaning(gs[1..], r, g.hi, hi, o);
      GapConcat(CutGap(g, r), CutGaps(gs[1..], r), lo, g.hi, hi, o);
    }
  }

  lemma {:induction false} CutAllMeaning(gs: seq<Gap>, rs: seq<Run>, lo: nat, hi: nat, o: nat)
    requires GapChain(gs, lo, hi)
    ensures GapChain(CutAll(gs, rs), lo, hi)
    ensures InGaps(CutAll(gs, rs), o) <==> InGaps(gs, o) && ByteAt(rs, o).None?
    decreases |rs|
  {
    if rs != [] {
      CutGapsMeaning(gs, rs[0], lo, hi, o);
      CutAllMeaning(CutGaps(gs, rs[0]), rs[1..], lo, hi, o);
    }
  }

  lemma NewGapsMeaning(rs: seq<Run>, off: nat, data: seq<u8>, o: nat)
    ensures InGaps(NewGaps(rs, off, data), o) <==> off <= o < off + |data| && ByteAt(rs, o).None?
  {
    var whole := [Gap(off, off + |data|)];
    assert GapChain(whole, off, off + |data|);
    CutAllMeaning(whole, rs, off, off + |data|, o);
    assert InGaps(whole, o) <==> off <= o < off + |data|;
  }

  // ---------------------------------------------------------------- pieces

  lemma {:induction false} PiecesShape(gs: seq<Gap>, off: nat, data: seq<u8>, room: nat, lo: nat)
    requires off <= lo && GapChain(gs, lo, off + |data|)
    ensures var ps := Pieces(gs, off, data, room);
            && Spaced(ps, lo, off + |data|, 0)
            && |ps| == Min(room, Wanted(gs))
            && Total(ps) <= off + |data| - lo
    decreases |gs|
  {
    if gs != [] {
      if gs[0].lo >= gs[0].hi {
        PiecesShape(gs[1..], off, data, room, gs[0].hi);
        SpacedWeaken(Pieces(gs[1..], off, data, room), gs[0].hi, off + |data|, 0, lo, off + |data|, 0);
      } else if room > 0 {
        PiecesShape(gs[1..], off, data, room - 1, gs[0].hi);
        assert Pieces(gs, off, data, room)[1..] == Pieces(gs[1..], off, data, room - 1);
      }
    }
  }

  lemma {:induction false} PiecesSound(gs: seq<Gap>, off: nat, data: seq<u8>, room: nat, o: nat)
    requires GapChain(gs, off, off + |data|) && ByteAt(Pieces(gs, off, data, room), o).Some?
    ensures InGaps(gs, o) && off <= o < off + |data| && ByteAt(Pieces(gs, off, data, room), o) == Some(data[o - off])
    decreases |gs|
  {
    GapLower(gs[1..], gs[0].hi, off, off + |data|);
    if gs[0].lo >= gs[0].hi {
      PiecesSound(gs[1..], off, data, room, o);
    } else if !(gs[0].lo <= o < gs[0].hi) {
      assert Pieces(gs, off, data, room)[1..] == Pieces(gs[1..], off, data, room - 1);
      PiecesSound(gs[1..], off, data, room - 1, o);
    }
  }

  /** Nothing is missing when there is room for every gap. */
  lemma {:induction false} PiecesComplete(gs: seq<Gap>, off: nat, data: seq<u8>, room: nat, o: nat)
    requires GapChain(gs, off, off + |data|) && InGaps(gs, o) && Wanted(gs) <= room
    ensures ByteAt(Pieces(gs, off, data, room), o).Some?
    decreases |gs|
  {
    GapLower(gs[1..], gs[0].hi, off, off + |data|);
    if gs[0].lo >= gs[0].hi {
      PiecesComplete(gs[1..], off, data, room, o);
    } else if !(gs[0].lo <= o < gs[0].hi) {
      assert Pieces(gs, off, data, room)[1..] == Pieces(gs[1..], off, data, room - 1);
      PiecesComplete(gs[1..], off, data, room - 1, o);
    }
  }

  /** With any room at all, the first byte is never missing. */
  lemma {:induction false} PiecesKeepFirst(gs: seq<Gap>, off: nat, data: seq<u8>, room: nat)
    requires GapChain(gs, off, off + |data|) && InGaps(gs, off) && room > 0
    ensures ByteAt(Pieces(gs, off, data, room), off).Some?
    decreases |gs|
  {
    GapLower(gs[1..], gs[0].hi, off, off + |data|);
    if gs[0].lo >= gs[0].hi {
      PiecesKeepFirst(gs[1..], off, data, room);
    } else if gs[0].lo > off {
      InGapsLower(gs[1..], gs[0].hi, off + |data|, off);
    }
  }

  lemma {:induction false} InGapsLower(gs: seq<Gap>, lo: nat, hi: nat, o: nat)
    requires GapChain(gs, lo, hi) && InGaps(gs, o)
    ensures lo <= o < hi
    decreases |gs|
  {
    if !(gs[0].lo <= o < gs[0].hi) {
      InGapsLower(gs[1..], gs[0].hi, hi, o);
    }
  }

  // ---------------------------------------------------------------- sorting in

  /** `r` overlaps nothing in `rs`. */
  predicate Clear(rs: seq<Run>, r: Run) {
    rs != [] ==> (r.End() <= rs[0].off || rs[0].End() <= r.off) && Clear(rs[1..], r)
  }

  lemma {:induction false} InsertSortedMeaning(rs: seq<Run>, r: Run, lo: nat, hi: nat, o: nat)
    requires Spaced(rs, lo, hi, 0) && Clear(rs, r)
    requires r.data != [] && lo <= r.off && r.End() <= hi
    ensures var out := InsertSorted(rs, r);
            && Spaced(out, lo, hi, 0)
            && |out| == |rs| + 1 && Total(out) == Total(rs) + |r.data|
            && ByteAt(out, o) == if r.Covers(o) then Some(r.data[o - r.off]) else ByteAt(rs, o)
    decreases |rs|
  {
    if rs == [] || r.off < rs[0].off {
      assert ([r] + rs)[1..] == rs;
    } else {
      InsertSortedMeaning(rs[1..], r, rs[0].End(), hi, o);
      assert InsertSorted(rs, r)[1..] == InsertSorted(rs[1..], r);
    }
  }

  predicate AllClear(rs: seq<Run>, ps: seq<Run>) {
    ps != [] ==> Clear(rs, ps[0]) && AllClear(rs, ps[1..])
  }

  lemma {:induction false} InsertSortedClear(rs: seq<Run>, r: Run, p: Run)
    requires Clear(rs, p) && (r.End() <= p.off || p.End() <= r.off)
    ensures Clear(InsertSorted(rs, r), p)
    decreases |rs|
  {
    if rs == [] || r.off < rs[0].off {
      assert ([r] + rs)[1..] == rs;
    } else {
      InsertSortedClear(rs[1..], r, p);
      assert InsertSorted(rs, r)[1..] == InsertSorted(rs[1..], r);
    }
  }

  lemma {:induction false} InsertSortedAllClear(rs: seq<Run>, r: Run, ps: seq<Run>, hi: nat)
    requires AllClear(rs, ps) && Spaced(ps, r.End(), hi, 0)
    ensures AllClear(InsertSorted(rs, r), ps)
    decreases |ps|
  {
    if ps != [] {
      InsertSortedClear(rs, r, ps[0]);
      SpacedWeaken(ps[1..], ps[0].End(), hi, 0, r.End(), hi, 0);
      InsertSortedAllClear(rs, r, ps[1..], hi);
    }
  }

  lemma {:induction false} InsertAllMeaning(rs: seq<Run>, ps: seq<Run>, lo: nat, hi: nat, o: nat)
    requires Spaced(rs, lo, hi, 0) && Spaced(ps, lo, hi, 0) && AllClear(rs, ps)
    ensures var out := InsertAll(rs, ps);
            && Spaced(out, lo, hi, 0)
            && |out| == |rs| + |ps| && Total(out) == Total(rs) + Total(ps)
            && ByteAt(out, o) == if ByteAt(ps, o).Some? then ByteAt(ps, o) else ByteAt(rs, o)
    decreases |ps|
  {
    if ps != [] {
      var p, rest := ps[0], ps[1..];
      InsertSortedMeaning(rs, p, lo, hi, o);
      InsertSortedAllClear(rs, p, rest, hi);
      if ByteAt(rest, o).Some? {
        ByteAtBounds(rest, p.End(), hi, 0, o);
      }
      SpacedWeaken(rest, p.End(), hi, 0, lo, hi, 0);
      InsertAllMeaning(InsertSorted(rs, p), rest, lo, hi, o);
    }
  }

  /** The pieces cut from the gaps between `rs` overlap nothing in it. */
  lemma {:induction false} PiecesClear(rs: seq<Run>, ps: seq<Run>, lo: nat, hi: nat, space: nat)
    requires Spaced(rs, lo, hi, space) && Spaced(ps, lo, hi, 0)
    requires forall o: nat :: ByteAt(ps, o).Some? ==> ByteAt(rs, o).None?
    ensures AllClear(rs, ps)
    decreases |ps|
  {
    if ps != [] {
      forall o: nat | ps[0].Covers(o)
        ensures ByteAt(rs, o).None?
      {
        assert ByteAt(ps, o).Some?;
      }
      ClearFromBytes(rs, ps[0], lo, hi, space);
      forall o: nat | ByteAt(ps[1..], o).Some?
        ensures ByteAt(rs, o).None?
      {
        ByteAtBounds(ps[1..], ps[0].End(), hi, 0, o);
        assert ByteAt(ps, o).Some?;
      }
      SpacedWeaken(ps[1..], ps[0].End(), hi, 0, lo, hi, 0);
      PiecesClear(rs, ps[1..], lo, hi, space);
    }
  }

  lemma {:induction false} ClearFromBytes(rs: seq<Run>, r: Run, lo: nat, hi: nat, space: nat)
    requires Spaced(rs, lo, hi, space) && r.data != []
    requires forall o: nat :: r.Covers(o) ==> ByteAt(rs, o).None?
    ensures Clear(rs, r)
    decreases |rs|
  {
    if rs != [] {
      assert r.Covers(r.off) && ByteAt(rs, r.off).None?;
      assert r.Covers(rs[0].off) ==> ByteAt(rs, rs[0].off).None?;
      forall o: nat | r.Covers(o)
        ensures ByteAt(rs[1..], o).None?
      {
        assert ByteAt(rs, o).None?;
      }
      ClearFromBytes(rs[1..], r, rs[0].End() + space, hi, space);
    }
  }

  // ---------------------------------------------------------------- coalescing

  lemma {:induction false} CoalesceMeaning(acc: Run, rs: seq<Run>, lo: nat, hi: nat, o: nat)
    requires lo <= acc.off && acc.data != [] && acc.End() <= hi && Spaced(rs, acc.End(), hi, 0)
    ensures var out := CoalesceFrom(acc, rs);
            && Spaced(out, lo, hi, 1)
            && out != [] && out[0].off == acc.off
            && |out| <= 1 + |rs| && Total(out) == |acc.data| + Total(rs)
            && ByteAt(out, o) == if acc.Covers(o) then Some(acc.data[o - acc.off]) else ByteAt(rs, o)
    decreases |rs|
  {
    if rs != [] {
      if acc.End() == rs[0].off {
        CoalesceMeaning(Run(acc.off, acc.data + rs[0].data), rs[1..], lo, hi, o);
      } else {
        CoalesceMeaning(rs[0], rs[1..], acc.End() + 1, hi, o);
        assert CoalesceFrom(acc, rs)[1..] == CoalesceFrom(rs[0], rs[1..]);
      }
    }
  }

  // ---------------------------------------------------------------- the refinement

  lemma NewPiecesFit(rs: seq<Run>, off: nat, data: seq<u8>, hi: nat)
    requires Canonical(rs, hi) && off + |data| <= hi
    ensures var ps := NewPieces(rs, off, data);
            && Spaced(rs, 0, hi, 0) && Spaced(ps, 0, hi, 0) && AllClear(rs, ps)
            && |ps| <= Room(rs) && Total(ps) <= |data|
  {
    var ps := NewPieces(rs, off, data);
    PiecesShape(NewGaps(rs, off, data), off, data, Room(rs), off);
    forall k: nat | ByteAt(ps, k).Some?
      ensures ByteAt(rs, k).None?
    {
      PiecesSound(NewGaps(rs, off, data), off, data, Room(rs), k);
      NewGapsMeaning(rs, off, data, k);
    }
    SpacedWeaken(ps, off, off + |data|, 0, 0, hi, 0);
    SpacedWeaken(rs, 0, hi, 1, 0, hi, 0);
    PiecesClear(rs, ps, 0, hi, 0);
  }

  /** The shape of the result, and its byte at one distance in terms of the new pieces. */
  lemma InsertShape(rs: seq<Run>, off: nat, data: seq<u8>, hi: nat, o: nat)
    requires Canonical(rs, hi) && off + |data| <= hi
    ensures var out, b := InsertRun(rs, off, data), ByteAt(NewPieces(rs, off, data), o);
            && Canonical(out, hi)
            && |out| <= Max(|rs|, MAX_FRAGMENTS)
            && Total(out) <= Total(rs) + |data|
            && ByteAt(out, o) == if b.Some? then b else ByteAt(rs, o)
  {
    NewPiecesFit(rs, off, data, hi);
    var ps := NewPieces(rs, off, data);
    InsertAllMeaning(rs, ps, 0, hi, o);
    var all := InsertAll(rs, ps);
    if all != [] {
      CoalesceMeaning(all[0], all[1..], 0, hi, o);
    }
  }

  /** At the cap nothing new is stored. */
  lemma {:induction false} NoRoomNoPieces(gs: seq<Gap>, off: nat, data: seq<u8>)
    requires GapChain(gs, off, off + |data|)
    ensures Pieces(gs, off, data, 0) == []
    decreases |gs|
  {
    if gs != [] {
      GapLower(gs[1..], gs[0].hi, off, off + |data|);
      NoRoomNoPieces(gs[1..], off, data);
    }
  }

  /** The byte of the result at one distance. */
  lemma InsertRunAt(rs: seq<Run>, off: nat, data: seq<u8>, hi: nat, o: nat)
    requires Canonical(rs, hi) && off + |data| <= hi
    ensures var b := ByteAt(InsertRun(rs, off, data), o);
            && (ByteAt(rs, o).Some? ==> b == ByteAt(rs, o))
            && (b.Some? ==> b == Union(ByteAt(rs, o), off, data, o))
            && (|rs| + Wanted(NewGaps(rs, off, data)) <= 128 ==> b == Union(ByteAt(rs, o), off, data, o))
            && (|rs| < 128 && o == off && data != [] ==> b.Some?)
            && (|rs| >= 128 ==> b == ByteAt(rs, o))
  {
    InsertShape(rs, off, data, hi, o);
    var gs := NewGaps(rs, off, data);
    NewGapsMeaning(rs, off, data, o);
    NoRoomNoPieces(gs, off, data);
    if ByteAt(NewPieces(rs, off, data), o).Some? {
      PiecesSound(gs, off, data, Room(rs), o);
    } else if InGaps(gs, o) && Wanted(gs) <= Room(rs) {
      PiecesComplete(gs, off, data, Room(rs), o);
    } else if InGaps(gs, o) && Room(rs) > 0 && o == off {
      PiecesKeepFirst(gs, off, data, Room(rs));
    }
  }

  /**
   Inserting a segment refines the first-arrival-wins byte map.  The result is sorted,
   disjoint, non-touching and within the bounds of its inputs.  When every gap finds a free
   slot it is exactly the union; otherwise it lies between the old map and that union.
   */
  lemma InsertRefinesUnion(rs: seq<Run>, off: nat, data: seq<u8>, hi: nat)
    requires Canonical(rs, hi) && off + |data| <= hi
    ensures var out := InsertRun(rs, off, data);
            && Canonical(out, hi)
            && |out| <= Max(|rs|, MAX_FRAGMENTS)
            && Total(out) <= Total(rs) + |data|
            && (forall o: nat :: ByteAt(rs, o).Some? ==> ByteAt(out, o) == ByteAt(rs, o))
            && (forall o: nat :: ByteAt(out, o).Some? ==> ByteAt(out, o) == Union(ByteAt(rs, o), off, data, o))
            && (|rs| + Wanted(NewGaps(rs, off, data)) <= MAX_FRAGMENTS ==>
                  forall o: nat :: ByteAt(out, o) == Union(ByteAt(rs, o), off, data, o))
  {
    InsertShape(rs, off, data, hi, 0);
    forall o: nat
      ensures var out := InsertRun(rs, off, data);
              && (ByteAt(rs, o).Some? ==> ByteAt(out, o) == ByteAt(rs, o))
              && (ByteAt(out, o).Some? ==> ByteAt(out, o) == Union(ByteAt(rs, o), off, data, o))
              && (|rs| + Wanted(NewGaps(rs, off, data)) <= MAX_FRAGMENTS ==>
                    ByteAt(out, o) == Union(ByteAt(rs, o), off, data, o))
    {
      InsertRunAt(rs, off, data, hi, o);
    }
  }
}
