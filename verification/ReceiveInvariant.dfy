/**
 What the receive side keeps, whatever the peer sends: the window test is exact within half
 the sequence space, the buffer stays canonical and inside the capacity, and a segment that
 covers `rcv_nxt` makes progress.
 */
module ReceiveInvariant {
  import opened Primitives
  import opened SequenceSpace
  import opened Reassembly
  import opened TcpTypes
  import opened Receiving

  // ---------------------------------------------------------------- the window test

  /** The distance from `rcv_nxt` to the start of a segment, in (-2^31, 2^31]. */
  function StartOffset(rcvNxt: u32, segStart: u32): int {
    var s := Sub(segStart, rcvNxt);
    if s <= HALF then s else s - MODULUS
  }

  /** The segment is near enough for signed differences to order it against both window edges. */
  predicate InReach(offset: int, len: nat, window: nat) {
    if offset >= 0 then len == 0 || offset + len - window < HALF
    else window == 0 || offset + len - window >= -HALF
  }

  /** The test decides the true intersection of [offset, offset + len) with [0, window). */
  predicate Exact(rcvNxt: u32, window: nat, segStart: u32, len: nat) {
    var u := WindowTest(rcvNxt, window, segStart, len);
    var offset := StartOffset(rcvNxt, segStart);
    && (u.any <==> Max(offset, 0) < Min(offset + len, window))
    && (u.any ==> Sub(u.start, rcvNxt) == Max(offset, 0) && Sub(u.end, rcvNxt) == Min(offset + len, window))
  }

  lemma SubAt(base: u32, x: u32, n: nat)
    requires n < MODULUS
    ensures Sub(At(x, n), base) == (if Sub(x, base) + n < MODULUS then Sub(x, base) + n else Sub(x, base) + n - MODULUS)
    ensures Sub(At(base, n), base) == n
  {
  }

  lemma SubSub(base: u32, x: u32, y: u32)
    ensures Sub(x, y) == (if Sub(x, base) >= Sub(y, base) then Sub(x, base) - Sub(y, base)
                          else Sub(x, base) - Sub(y, base) + MODULUS)
  {
  }

  /** Distances from `rcv_nxt` of everything the test looks at. */
  lemma TestDistances(rcvNxt: u32, window: nat, segStart: u32, len: nat)
    requires window <= RECEIVE_CAPACITY && len <= 65535
    ensures var s := Sub(segStart, rcvNxt);
            var e := if s + len < MODULUS then s + len else s + len - MODULUS;
            var u := WindowTest(rcvNxt, window, segStart, len);
            && Sub(u.start, rcvNxt) == (if s > HALF then 0 else s)
            && Sub(u.end, rcvNxt) == (if 0 < Difference(e, window) < HALF then window else e)
            && (u.any <==> 0 < Difference(Sub(u.end, rcvNxt), Sub(u.start, rcvNxt)) < HALF)
  {
    SubAt(rcvNxt, segStart, len);
    SubAt(rcvNxt, rcvNxt, window);
    SubSub(rcvNxt, rcvNxt, segStart);
    SubSub(rcvNxt, At(segStart, len), At(rcvNxt, window));
    var u := WindowTest(rcvNxt, window, segStart, len);
    SubSub(rcvNxt, u.end, u.start);
  }

  /** `a - b` of two distances, in the number space. */
  function Difference(a: int, b: int): int { if a >= b then a - b else a - b + MODULUS }

  /** The window test is right exactly for the segments in reach. */
  lemma WindowTestExactness(rcvNxt: u32, window: nat, segStart: u32, len: nat)
    requires window <= RECEIVE_CAPACITY && len <= 65535
    ensures Exact(rcvNxt, window, segStart, len) <==> InReach(StartOffset(rcvNxt, segStart), len, window)
  {
    hide WindowTest;
    TestDistances(rcvNxt, window, segStart, len);
  }

  /** A one-byte segment just under half the space behind the window is taken for a segment inside it. */
  lemma FarSegmentIsMisjudged()
    ensures WindowTest(0, 65535, 0x8000_0001, 1) == Usable(0, 65535, true)
    ensures StartOffset(0, 0x8000_0001) == -0x7fff_ffff
    ensures !Exact(0, 65535, 0x8000_0001, 1)
  {
  }

  /** A segment that reaches half the space ahead of a closed window is taken whole. */
  lemma FarAheadIsMisjudged()
    ensures WindowTest(0, 0, 0x7fff_ffff, 1000) == Usable(0x7fff_ffff, At(0x7fff_ffff, 1000), true)
    ensures StartOffset(0, 0x7fff_ffff) == 0x7fff_ffff
    ensures !Exact(0, 0, 0x7fff_ffff, 1000)
  {
  }

  /**
   What the source does with a segment that the test takes: it copies from inside the payload and
   stays inside the window exactly when the segment is in reach.  Out of reach behind the window
   the copy would begin past the end of the payload, and out of reach ahead of it the whole
   payload is taken, from outside the window.
   */
  lemma TakenRightly(rcvNxt: u32, window: nat, segStart: u32, len: nat)
    requires window <= RECEIVE_CAPACITY && len <= 65535 && WindowTest(rcvNxt, window, segStart, len).any
    ensures var u, d := WindowTest(rcvNxt, window, segStart, len), StartOffset(rcvNxt, segStart);
            var from, n, at := Sub(u.start, segStart), Sub(u.end, u.start), Sub(u.start, rcvNxt);
            && (InReach(d, len, window) <==> from + n <= len && at + n <= window)
            && (!InReach(d, len, window) && d < 0 ==> from > len)
            && (!InReach(d, len, window) && d >= 0 ==> from == 0 && n == len && at == d > window)
  {
    hide WindowTest;
    TestDistances(rcvNxt, window, segStart, len);
    var u := WindowTest(rcvNxt, window, segStart, len);
    SubSub(rcvNxt, u.start, segStart);
    SubSub(rcvNxt, u.end, u.start);
  }

  /** The FIN test is exact for every number. */
  lemma FinTestExact(rcvNxt: u32, window: nat, segEnd: u32)
    requires window <= RECEIVE_CAPACITY
    ensures FinInWindow(rcvNxt, window, segEnd) <==> Sub(segEnd, rcvNxt) < window
  {
    SubAt(rcvNxt, rcvNxt, window);
    SubSub(rcvNxt, At(rcvNxt, window), segEnd);
  }

  // ---------------------------------------------------------------- fragments and runs

  lemma {:induction false} RunsRoundTrip(rs: seq<Run>, base: u32, lo: nat, hi: nat, space: nat)
    requires Spaced(rs, lo, hi, space) && hi < MODULUS
    ensures ToRuns(FromRuns(rs, base), base) == rs && |FromRuns(rs, base)| == |rs|
    ensures TotalBytes(FromRuns(rs, base)) == Total(rs)
    decreases |rs|
  {
    if rs != [] {
      SubAt(base, base, rs[0].off);
      RunsRoundTrip(rs[1..], base, rs[0].End() + space, hi, space);
    }
  }

  lemma {:induction false} RunsTotal(fs: seq<Fragment>, base: u32)
    ensures Total(ToRuns(fs, base)) == TotalBytes(fs) && |ToRuns(fs, base)| == |fs|
    decreases |fs|
  {
    if fs != [] {
      RunsTotal(fs[1..], base);
    }
  }

  /** Moving the base forward by `n` moves every run back by `n`. */
  lemma {:induction false} RunsRebase(fs: seq<Fragment>, base: u32, n: nat, hi: nat, space: nat, o: nat)
    requires Spaced(ToRuns(fs, base), n, hi, space) && hi < MODULUS
    ensures Spaced(ToRuns(fs, At(base, n)), 0, hi, space)
    ensures ByteAt(ToRuns(fs, At(base, n)), o) == ByteAt(ToRuns(fs, base), o + n)
    decreases |fs|
  {
    RebaseShape(fs, base, n, n, hi, space);
    if fs != [] {
      var rs := ToRuns(fs, base);
      assert rs[1..] == ToRuns(fs[1..], base);
      RebaseOne(fs[0].start, base, n);
      SpacedWeaken(rs[1..], rs[0].End() + space, hi, space, n, hi, space);
      RunsRebase(fs[1..], base, n, hi, space, o);
      assert ToRuns(fs, At(base, n))[1..] == ToRuns(fs[1..], At(base, n));
    }
  }

  lemma RebaseOne(start: u32, base: u32, n: nat)
    requires n <= Sub(start, base)
    ensures Sub(start, At(base, n)) == Sub(start, base) - n
  {
    SubAt(base, base, n);
    SubSub(base, start, At(base, n));
  }

  lemma {:induction false} RebaseShape(fs: seq<Fragment>, base: u32, n: nat, lo: nat, hi: nat, space: nat)
    requires n <= lo && Spaced(ToRuns(fs, base), lo, hi, space) && hi < MODULUS
    ensures Spaced(ToRuns(fs, At(base, n)), lo - n, hi, space)
    decreases |fs|
  {
    if fs != [] {
      var rs := ToRuns(fs, base);
      assert rs[1..] == ToRuns(fs[1..], base);
      RebaseOne(fs[0].start, base, n);
      RebaseShape(fs[1..], base, n, rs[0].End() + space, hi, space);
      assert ToRuns(fs, At(base, n))[1..] == ToRuns(fs[1..], At(base, n));
    }
  }

  // ---------------------------------------------------------------- the invariant

  function Runs(r: RecvState): seq<Run> { ToRuns(r.fragments, r.nxt) }

  /** The byte buffered at distance `o` from `rcv_nxt`. */
  function Held(r: RecvState, o: nat): Option<u8> { ByteAt(Runs(r), o) }

  predicate OptValid(opt: Negotiated) {
    && 1 <= opt.sendMss <= 1460
    && opt.peerScale <= 14
    && (if opt.scaling then opt.localScale == 2 else opt.localScale == 0 && opt.peerScale == 0)
  }

  /** How far from `rcv_nxt` a buffered byte can end. */
  function Limit(opt: Negotiated): nat { if opt.scaling then RECEIVE_CAPACITY else 65535 }

  predicate BufferValid(r: RecvState, opt: Negotiated) {
    && Canonical(Runs(r), Limit(opt))
    && |r.fragments| <= MAX_FRAGMENTS
    && BufferedBytes(r) <= RECEIVE_CAPACITY
  }

  lemma {:induction false} TotalFits(rs: seq<Run>, lo: nat, hi: nat, space: nat)
    requires Spaced(rs, lo, hi, space) && lo <= hi
    ensures Total(rs) <= hi - lo
    decreases |rs|
  {
    if rs != [] {
      if rs[0].End() + space <= hi {
        TotalFits(rs[1..], rs[0].End() + space, hi, space);
      }
    }
  }

  /**
   What is advertised.  Without scaling it is always 65535.  With scaling the wire value is
   never truncated and promises at most what is free, less than four bytes short of it.
   */
  lemma AdvertisedWindowMeaning(r: RecvState, opt: Negotiated)
    requires OptValid(opt) && BufferValid(r, opt)
    ensures !opt.scaling ==> AdvertisedWindow(r, opt, opt.scaling) == 65535 == LogicalWindow(r, opt)
    ensures opt.scaling ==>
              var free := RECEIVE_CAPACITY - BufferedBytes(r);
              && AdvertisedWindow(r, opt, true) == free / 4
              && LogicalWindow(r, opt) <= free < LogicalWindow(r, opt) + 4
    ensures LogicalWindow(r, opt) <= Limit(opt)
    ensures opt.scaling && BufferedBytes(r) == 0 ==> LogicalWindow(r, opt) == 262140
  {
    TotalFits(Runs(r), 0, Limit(opt), 1);
    RunsTotal(r.fragments, r.nxt);
    if opt.scaling {
      var free := RECEIVE_CAPACITY - BufferedBytes(r);
      assert Unshift(free, 2) == Unshift(free / 2, 1) == Unshift(free / 2 / 2, 0);
      var w := free / 2 / 2;
      assert Shift(w, 2) == Shift(2 * w, 1) == Shift(4 * w, 0);
    }
  }

  /** The wire number of a distance from `rcv_nxt`. */
  lemma SliceOf(u: Usable, rcvNxt: u32, segStart: u32, payload: seq<u8>, window: nat)
    requires |payload| <= 65535 && window <= RECEIVE_CAPACITY
    requires u == WindowTest(rcvNxt, window, segStart, |payload|) && u.any
    requires InReach(StartOffset(rcvNxt, segStart), |payload|, window)
    ensures var d := StartOffset(rcvNxt, segStart);
            var lo, hi := Max(d, 0), Min(d + |payload|, window);
            && 0 <= lo < hi <= window && 0 <= lo - d <= hi - d <= |payload|
            && Sub(u.start, rcvNxt) == lo
            && UsablePayload(u, segStart, payload) == payload[lo - d..hi - d]
  {
    WindowTestExactness(rcvNxt, window, segStart, |payload|);
    var d := StartOffset(rcvNxt, segStart);
    SubSub(rcvNxt, u.start, segStart);
    SubSub(rcvNxt, u.end, u.start);
  }

  /** Inserting `data` at `start`, seen through `Held`. */
  lemma InsertFragmentMeaning(r: RecvState, start: u32, data: seq<u8>, hi: nat, o: nat)
    requires hi < MODULUS && Canonical(Runs(r), hi) && |r.fragments| <= MAX_FRAGMENTS
    requires Sub(start, r.nxt) + |data| <= hi && data != []
    ensures var off := Sub(start, r.nxt);
            var r' := r.(fragments := InsertFragment(r.fragments, r.nxt, start, data));
            && Canonical(Runs(r'), hi) && |r'.fragments| <= MAX_FRAGMENTS
            && TotalBytes(r'.fragments) <= TotalBytes(r.fragments) + |data|
            && (Held(r, o).Some? ==> Held(r', o) == Held(r, o))
            && (Held(r', o).Some? ==> Held(r', o) == Union(Held(r, o), off, data, o))
            && (|r.fragments| < MAX_FRAGMENTS && o == off ==> Held(r', o).Some?)
            && (|r.fragments| == MAX_FRAGMENTS ==> Held(r', o) == Held(r, o))
  {
    var off := Sub(start, r.nxt);
    RunsTotal(r.fragments, r.nxt);
    InsertShape(Runs(r), off, data, hi, o);
    InsertRunAt(Runs(r), off, data, hi, o);
    RunsRoundTrip(InsertRun(Runs(r), off, data), r.nxt, 0, hi, 1);
  }

  /** The usable bytes of a segment and their distance from `rcv_nxt`. */
  function UsableAt(r: RecvState, opt: Negotiated, segStart: u32, payload: seq<u8>): (int, seq<u8>) {
    var d := StartOffset(r.nxt, segStart);
    var lo, hi := Max(d, 0), Min(d + |payload|, LogicalWindow(r, opt));
    (lo, if 0 <= lo - d <= hi - d <= |payload| then payload[lo - d..hi - d] else [])
  }

  predicate Overlaps(r: RecvState, opt: Negotiated, segStart: u32, payload: seq<u8>) {
    WindowTest(r.nxt, LogicalWindow(r, opt), segStart, |payload|).any
  }

  function AcceptSegment(r: RecvState, opt: Negotiated, segStart: u32, payload: seq<u8>): RecvState {
    Accept(r, WindowTest(r.nxt, LogicalWindow(r, opt), segStart, |payload|), segStart, payload)
  }

  /** The slice the source takes is the true intersection with the window. */
  lemma UsableSlice(r: RecvState, opt: Negotiated, segStart: u32, payload: seq<u8>)
    requires LogicalWindow(r, opt) <= Limit(opt) && |payload| <= 65535 && Overlaps(r, opt, segStart, payload)
    requires InReach(StartOffset(r.nxt, segStart), |payload|, LogicalWindow(r, opt))
    ensures var (lo, data) := UsableAt(r, opt, segStart, payload);
            var u := WindowTest(r.nxt, LogicalWindow(r, opt), segStart, |payload|);
            && 0 <= lo == Sub(u.start, r.nxt) && data == UsablePayload(u, segStart, payload) != []
            && lo + |data| <= LogicalWindow(r, opt)
  {
    hide LogicalWindow, WindowTest, InReach, UsablePayload;
    var u := WindowTest(r.nxt, LogicalWindow(r, opt), segStart, |payload|);
    SliceOf(u, r.nxt, segStart, payload, LogicalWindow(r, opt));
  }

  /** Accepting the usable part of a segment: the union of byte maps, within the window. */
  lemma AcceptMeaning(r: RecvState, opt: Negotiated, segStart: u32, payload: seq<u8>, o: nat)
    requires OptValid(opt) && BufferValid(r, opt) && |payload| <= 65535
    requires Overlaps(r, opt, segStart, payload)
    requires InReach(StartOffset(r.nxt, segStart), |payload|, LogicalWindow(r, opt))
    ensures var (lo, data) := UsableAt(r, opt, segStart, payload);
            var r' := AcceptSegment(r, opt, segStart, payload);
            && 0 <= lo && data != [] && lo + |data| <= LogicalWindow(r, opt)
            && Canonical(Runs(r'), Limit(opt)) && |r'.fragments| <= MAX_FRAGMENTS
            && TotalBytes(r'.fragments) <= TotalBytes(r.fragments) + |data|
            && (Held(r, o).Some? ==> Held(r', o) == Held(r, o))
            && (Held(r', o).Some? ==> Held(r', o) == Union(Held(r, o), lo, data, o))
            && (|r.fragments| < MAX_FRAGMENTS && o == lo ==> Held(r', o).Some?)
            && (|r.fragments| == MAX_FRAGMENTS ==> Held(r', o) == Held(r, o))
  {
    hide LogicalWindow, WindowTest, InReach, InsertFragment, BufferedBytes, UsablePayload, UsableAt, Canonical, ByteAt,
         Overlaps, OptValid, StartOffset, Union;
    AdvertisedWindowMeaning(r, opt);
    UsableSlice(r, opt, segStart, payload);
    var u := WindowTest(r.nxt, LogicalWindow(r, opt), segStart, |payload|);
    InsertFragmentMeaning(r, u.start, UsablePayload(u, segStart, payload), Limit(opt), o);
  }

  /** A segment out of reach ahead of the window is buffered there, and the buffer leaves the window. */
  lemma FarAheadIsBuffered(r: RecvState, opt: Negotiated, segStart: u32, payload: seq<u8>)
    requires OptValid(opt) && BufferValid(r, opt) && |payload| <= 65535 && |r.fragments| < MAX_FRAGMENTS
    requires StartOffset(r.nxt, segStart) >= 0
             && !InReach(StartOffset(r.nxt, segStart), |payload|, LogicalWindow(r, opt))
    ensures var r' := AcceptSegment(r, opt, segStart, payload);
            && Overlaps(r, opt, segStart, payload) && Held(r', StartOffset(r.nxt, segStart)).Some?
            && !BufferValid(r', opt)
  {
    hide LogicalWindow, WindowTest, InsertFragment, BufferedBytes, ByteAt, OptValid, Canonical;
    var d, w := StartOffset(r.nxt, segStart), LogicalWindow(r, opt);
    var r' := AcceptSegment(r, opt, segStart, payload);
    AdvertisedWindowMeaning(r, opt);
    AheadIsTaken(r.nxt, w, segStart, |payload|);
    TakenRightly(r.nxt, w, segStart, |payload|);
    assert UsablePayload(WindowTest(r.nxt, w, segStart, |payload|), segStart, payload) == payload;
    Widen(Runs(r), Limit(opt), d + |payload|);
    InsertFragmentMeaning(r, segStart, payload, d + |payload|, d);
    if Canonical(Runs(r'), Limit(opt)) {
      HeldBelow(Runs(r'), Limit(opt), d);
    }
  }

  lemma AheadIsTaken(rcvNxt: u32, window: nat, segStart: u32, len: nat)
    requires window <= RECEIVE_CAPACITY && len <= 65535
    requires StartOffset(rcvNxt, segStart) >= 0 && !InReach(StartOffset(rcvNxt, segStart), len, window)
    ensures var u := WindowTest(rcvNxt, window, segStart, len); u.any && u.start == segStart
  {
    hide WindowTest;
    TestDistances(rcvNxt, window, segStart, len);
    var u := WindowTest(rcvNxt, window, segStart, len);
    SubSub(rcvNxt, u.start, segStart);
  }

  lemma Widen(rs: seq<Run>, hi: nat, hi': nat)
    requires Canonical(rs, hi) && hi <= hi'
    ensures Canonical(rs, hi')
  {
    SpacedWeaken(rs, 0, hi, 1, 0, hi', 1);
  }

  lemma HeldBelow(rs: seq<Run>, hi: nat, o: nat)
    requires Canonical(rs, hi) && ByteAt(rs, o).Some?
    ensures o < hi
  {
    ByteAtBounds(rs, 0, hi, 1, o);
  }

  /** Release takes exactly the run that starts at `rcv_nxt`, if there is one. */
  lemma ReleaseMeaning(r: RecvState, hi: nat, o: nat)
    requires hi <= RECEIVE_CAPACITY && Canonical(Runs(r), hi)
    ensures var (bytes, nxt, rest) := Release(r.nxt, r.fragments);
            var r' := r.(nxt := nxt, fragments := rest);
            && nxt == At(r.nxt, |bytes|)
            && Canonical(Runs(r'), hi) && |rest| <= |r.fragments|
            && TotalBytes(rest) + |bytes| == TotalBytes(r.fragments)
            && (o < |bytes| ==> Held(r, o) == Some(bytes[o]))
            && Held(r', o) == Held(r, o + |bytes|)
            && (rest != [] ==> Sub(rest[0].start, nxt) > 0)
            && (Held(r, 0).Some? <==> bytes != [])
  {
    var fs := r.fragments;
    AtZero(r.nxt);
    assert At(r.nxt, 0) == r.nxt;
    if fs != [] {
      var rs := Runs(r);
      assert rs[1..] == ToRuns(fs[1..], r.nxt);
      if fs[0].start == r.nxt {
        var n := |fs[0].payload|;
        SpacedWeaken(rs[1..], n + 1, hi, 1, n, hi, 1);
        RunsRebase(fs[1..], r.nxt, n, hi, 1, o);
        if fs[1..] != [] {
          RebaseOne(fs[1].start, r.nxt, n);
        }
        assert Release(At(r.nxt, n), fs[1..]) == ([], At(r.nxt, n), fs[1..]);
        if ByteAt(rs[1..], o + n).None? {
        } else {
          ByteAtBounds(rs[1..], n + 1, hi, 1, o + n);
        }
      } else {
        assert Sub(fs[0].start, r.nxt) > 0;
        if Held(r, 0).Some? {
          ByteAtBounds(rs[1..], rs[0].End() + 1, hi, 1, 0);
        }
      }
    }
  }

  /** Stepping over the FIN moves every buffered byte one place closer. */
  lemma StepOverFin(r: RecvState, hi: nat, o: nat)
    requires hi <= RECEIVE_CAPACITY && Canonical(Runs(r), hi)
    requires r.fragments != [] ==> Sub(r.fragments[0].start, r.nxt) > 0
    ensures var r' := r.(nxt := At(r.nxt, 1));
            Canonical(Runs(r'), hi) && Held(r', o) == Held(r, o + 1)
  {
    RunsRebase(r.fragments, r.nxt, 1, hi, 1, o);
  }
}
