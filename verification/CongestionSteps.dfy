/**
 The congestion laws on the steps of the engine: what every arriving acknowledgment and every
 timeout does to the windows, in bytes and positions, and when recovery begins.
 */
module CongestionSteps {
  import opened Primitives
  import opened SequenceSpace
  import opened TcpOptions
  import opened TcpSegments
  import opened TcpTypes
  import opened Receiving
  import opened CongestionControl
  import opened Sending
  import opened TcpEngine
  import opened PendingQueue
  import opened ConnInvariant
  import opened AckPhase
  import opened ReceivePhase
  import opened ConnSteps
  import opened CallSteps
  import opened ConnRuns
  import opened RecoveryEpisodes
  import opened Emissions
  import TwoEndpoints
  import opened SendLimits

  const MAX_WINDOW: int := 0x4000_0000

  // ---------------------------------------------------------------- congestion avoidance

  /** The sum of `k` successive windows, each a segment larger than the one before. */
  function Windows(w: nat, mss: nat, k: nat): nat
    decreases k
  {
    if k == 0 then 0 else w + Windows(Min(w + mss, MAX_WINDOW), mss, k - 1)
  }

  /** `d` more acknowledged bytes complete `k` windows, which add `k` segments; the rest is carried over. */
  predicate Completes(w: nat, a: nat, d: nat, mss: nat, w': nat, a': nat, k: nat) {
    a' < w' && w' == Min(w + k * mss, MAX_WINDOW) && a + d == Windows(w, mss, k) + a'
  }

  ghost predicate OnePerWindow(w: nat, a: nat, d: nat, mss: nat, w': nat, a': nat) {
    exists k: nat :: Completes(w, a, d, mss, w', a', k)
  }

  lemma {:induction false} AvoidCompletes(w: nat, a: nat, mss: nat)
    requires 1 <= mss <= w <= MAX_WINDOW
    ensures var (w', a') := Avoid(w, a, mss); OnePerWindow(w, a, 0, mss, w', a')
    decreases a
  {
    var (w', a') := Avoid(w, a, mss);
    if a >= w {
      var next := Min(w + mss, MAX_WINDOW);
      AvoidCompletes(next, a - w, mss);
      var k: nat :| Completes(next, a - w, 0, mss, w', a', k);
      OneMoreWindow(w, a, mss, w', a', k);
    } else {
      assert Completes(w, a, 0, mss, w', a', 0);
    }
  }

  lemma OneMoreWindow(w: nat, a: nat, mss: nat, w': nat, a': nat, k: nat)
    requires w <= a && Completes(Min(w + mss, MAX_WINDOW), a - w, 0, mss, w', a', k)
    ensures Completes(w, a, 0, mss, w', a', k + 1)
  {
    SegmentsAdd(w, mss, 1, k);
  }

  lemma {:induction false} WindowsAdd(w: nat, mss: nat, k: nat, m: nat)
    requires w <= MAX_WINDOW
    ensures Windows(w, mss, k + m) == Windows(w, mss, k) + Windows(Min(w + k * mss, MAX_WINDOW), mss, m)
    decreases k
  {
    if k > 0 {
      SegmentsAdd(w, mss, 1, k - 1);
      WindowsAdd(Min(w + mss, MAX_WINDOW), mss, k - 1, m);
    }
  }

  /** The law adds up: acknowledging in two steps or in one makes no difference. */
  lemma OnePerWindowAdds(w: nat, a: nat, d: nat, mss: nat, w1: nat, a1: nat, d1: nat, w2: nat, a2: nat)
    requires w <= MAX_WINDOW && OnePerWindow(w, a, d, mss, w1, a1) && OnePerWindow(w1, a1, d1, mss, w2, a2)
    ensures OnePerWindow(w, a, d + d1, mss, w2, a2)
  {
    var k: nat :| Completes(w, a, d, mss, w1, a1, k);
    var m: nat :| Completes(w1, a1, d1, mss, w2, a2, m);
    WindowsAdd(w, mss, k, m);
    assert Completes(w, a, d + d1, mss, w2, a2, k + m) by {
      hide Windows;
      SegmentsAdd(w, mss, k, m);
    }
  }

  lemma SegmentsAdd(w: nat, mss: nat, k: nat, m: nat)
    ensures Min(Min(w + k * mss, MAX_WINDOW) + m * mss, MAX_WINDOW) == Min(w + (k + m) * mss, MAX_WINDOW)
  {
    assert (k + m) * mss == k * mss + m * mss;
    assert m * mss >= 0;
  }

  /** At least one whole window, and less than two, adds exactly one segment; less than one adds nothing. */
  lemma OneWindowOneSegment(w: nat, a: nat, d: nat, mss: nat, w': nat, a': nat)
    requires 1 <= mss <= w && w + mss <= MAX_WINDOW && OnePerWindow(w, a, d, mss, w', a')
    ensures a + d < w ==> w' == w && a' == a + d
    ensures w <= a + d < w + (w + mss) ==> w' == w + mss && a' == a + d - w
  {
    var k: nat :| Completes(w, a, d, mss, w', a', k);
    if k >= 2 {
      assert Windows(w, mss, k) == w + (w + mss + Windows(Min(w + mss + mss, MAX_WINDOW), mss, k - 2));
    } else if k == 1 {
      assert Windows(w, mss, 1) == w + Windows(Min(w + mss, MAX_WINDOW), mss, 0);
    }
  }

  // ---------------------------------------------------------------- the laws

  /** Slow start and congestion avoidance: an advancing ACK outside recovery that covers `d` data bytes. */
  ghost predicate Grows(cc: Congestion, mss: nat, d: nat, cc': Congestion) {
    && cc' == cc.(cwnd := cc'.cwnd, acked := cc'.acked, duplicateAcks := 0)
    && (if cc.cwnd < cc.ssthresh then cc'.cwnd == Min(cc.cwnd + Min(d, mss), MAX_WINDOW) && cc'.acked == cc.acked
        else OnePerWindow(cc.cwnd, cc.acked, d, mss, cc'.cwnd, cc'.acked))
  }

  /** A partial ACK of `n` positions: deflation by what was acknowledged, and one segment back for a whole one. */
  predicate Deflates(cc: Congestion, mss: nat, n: nat, cc': Congestion) {
    && cc' == cc.(cwnd := cc'.cwnd, duplicateAcks := 0)
    && cc'.cwnd == Min(Max(cc.cwnd - n, mss) + (if n >= mss then mss else 0), MAX_WINDOW)
  }

  /** The ACK that ends recovery leaves the window at the threshold. */
  predicate EndsRecovery(cc: Congestion, cc': Congestion) {
    cc' == cc.(cwnd := cc.ssthresh, inRecovery := false, acked := 0, duplicateAcks := 0)
  }

  function HalfFlight(flight: nat, mss: nat): int { Min(Max(flight / 2, 2 * mss), MAX_WINDOW) }

  /** The third duplicate: the threshold at half the flight, the window three segments above it. */
  predicate BeginsRecovery(cc: Congestion, mss: nat, flight: nat, point: u32, cc': Congestion) {
    && cc'.inRecovery && cc'.recoveryPoint == point && cc'.acked == 0 && cc'.duplicateAcks == 3
    && cc'.ssthresh == HalfFlight(flight, mss) && cc'.cwnd == Min(cc'.ssthresh + 3 * mss, MAX_WINDOW)
  }

  /** A timeout of data: one segment, the threshold at half the flight. */
  predicate Restarts(cc: Congestion, mss: nat, flight: nat, cc': Congestion) {
    && !cc'.inRecovery && cc'.acked == 0 && cc'.duplicateAcks == 0
    && cc'.cwnd == mss && cc'.ssthresh == HalfFlight(flight, mss)
  }

  lemma GrowLaw(cc: Congestion, mss: nat, d: nat)
    requires Bounded(cc, mss)
    ensures Grows(cc, mss, d, Grow(cc.(duplicateAcks := 0), mss, d))
  {
    if d == 0 || cc.cwnd < cc.ssthresh {
      assert Completes(cc.cwnd, cc.acked, 0, mss, cc.cwnd, cc.acked, 0);
    } else {
      AvoidCompletes(cc.cwnd, cc.acked + d, mss);
      var (w, a) := Avoid(cc.cwnd, cc.acked + d, mss);
      var k: nat :| Completes(cc.cwnd, cc.acked + d, 0, mss, w, a, k);
      assert Completes(cc.cwnd, cc.acked, d, mss, w, a, k);
    }
  }

  // ---------------------------------------------------------------- an arriving acknowledgment

  /** Data bytes, not only a FIN, are in flight. */
  predicate DataInFlight(v: View) { 1 <= v.una < DataEnd(v) }

  /** The position up to which data has been acknowledged, and the data bytes acknowledged between two histories. */
  function AckedEnd(v: View): int { Min(v.una, 1 + |v.ledger.stream|) }

  function DataAcked(v: View, v': View): int { AckedEnd(v') - AckedEnd(v) }

  lemma {:induction false} DataIsQueued(pending: seq<Pending>, pos: nat, end: nat, l: Ledger)
    requires Tiles(pending, pos, end, l)
    ensures HasOutstandingData(pending) <==> pos < Min(end, 1 + |l.stream|)
    decreases |pending|
  {
    if pending != [] {
      var e, rest, next := pending[0], pending[1..], pos + pending[0].Length();
      TilesOrdered(rest, next, end, l);
      DataIsQueued(rest, next, end, l);
      if e.isFin {
        FinIsLast(pending, pos, end, l);
      }
      assert e in pending;
      assert forall x | x in rest :: x in pending;
      assert forall x | x in pending :: x == e || x in rest;
    }
  }

  /** A duplicate ACK: it names `snd_una`, carries nothing, moves no window, and data is in flight. */
  predicate IsDuplicate(c: Conn, v: View, seg: Segment) {
    && AckAcceptable(c, seg) && seg.ackno == At(v.ledger.isn, v.una) && seg.payload == [] && !seg.flags.fin
    && DataInFlight(v) && !MovesWindow(c, seg)
  }

  predicate MovesWindow(c: Conn, seg: Segment) { UpdateSendWindow(c.snd, c.opt, seg).wnd != c.snd.wnd }

  /** What acknowledgment processing makes of the congestion record. */
  lemma ArrivalCongestion(key: Key, c: Conn, v: View, seg: Segment, now: int)
    requires SyncValid(c, v) && c.state != TimeWait && Timely(c.rcv, c.opt, seg) && AckAcceptable(c, seg)
    ensures var blocks := ParseOptions(seg.options).value.sackBlocks;
            var c', v' := HandleSynchronized(key, c, seg, now).0, SynchronizedView(key, c, v, seg, now);
            && c'.cc == Responded(key, c, seg, blocks, now).0.cc
            && v'.una == AckView(c, v, seg.ackno, now).una && v'.ledger.stream == v.ledger.stream
            && v'.una <= v.nxt
  {
    hide SyncValid, CoreValid, StepState, ProcessAck, AfterAck, AfterAckView, ProcessAckView, FastOk, ParseOptions,
         Timely, SeqLessOrEqual, EpisodeKept, AllGenuine, Responded, AckView, SendValid, RecoveryValid, Extends;
    var blocks := ParseOptions(seg.options).value.sackBlocks;
    var (c1, fast) := ProcessAck(key, c, seg, blocks, now);
    var v1 := ProcessAckView(c, v, seg, blocks, now);
    ProcessAckKeepsValid(key, c, v, seg, blocks, now);
    FastIsResend(fast, c.rcv.nxt, c.cc.inRecovery, v.ledger.episode, v1);
    AfterAckKeepsValid(key, c1, v1, seg, fast, now);
    AfterAckFrame(key, c1, seg, fast, now);
    ProcessAckCongestion(key, c, seg, blocks, now);
    SyncIsCore(c, v);
    CoreParts(c, v);
    RespondedIsOk(key, c, v, seg, blocks, now);
    RetireMeaning(c, v, seg.ackno, now);
    AckViewFrame(c, v, seg.ackno, now);
  }

  lemma CoreParts(c: Conn, v: View)
    requires CoreValid(c, v)
    ensures SendValid(c.snd, v) && RecoveryValid(c, v) && RttEstimator.Valid(c.rtt) && Bounded(c.cc, c.opt.sendMss)
  {
  }

  lemma ProcessAckCongestion(key: Key, c: Conn, seg: Segment, blocks: seq<SackBlock>, now: int)
    ensures ProcessAck(key, c, seg, blocks, now).0.cc == Responded(key, c, seg, blocks, now).0.cc
  {
    hide RetireAcknowledged, ApplySack, UpdateSendWindow, OnAdvance, OnDuplicate, LocalFinAcked;
  }

  /** The record before the response is the old one. */
  lemma BeforeResponse(c: Conn, v: View, seg: Segment, blocks: seq<SackBlock>, now: int)
    requires SendValid(c.snd, v) && RttEstimator.Valid(c.rtt) && SeqLessOrEqual(seg.ackno, c.snd.nxt)
    ensures var c1 := RetireAcknowledged(c, seg.ackno, now).0;
            var c2 := ApplySack(c1, seg.ackno, blocks);
            var c3 := c2.(snd := UpdateSendWindow(c2.snd, c2.opt, seg));
            && c3.cc == c.cc && c3.opt == c.opt && SendValid(c3.snd, AckView(c, v, seg.ackno, now))
  {
    hide SendValid, RetireAcknowledged, ApplySack, UpdateSendWindow, AckView, SeqLessOrEqual;
    RetireKeepsValid(c, v, seg.ackno, now);
    RetireFrame(c, seg.ackno, now);
    SackAndWindow(RetireAcknowledged(c, seg.ackno, now).0, AckView(c, v, seg.ackno, now), seg, blocks);
  }

  /** An advancing ACK: growth outside recovery, deflation before the recovery point, and the end at it. */
  lemma AdvanceLaws(key: Key, c: Conn, v: View, seg: Segment, now: int)
    requires SyncValid(c, v) && c.state != TimeWait && Timely(c.rcv, c.opt, seg) && AckAcceptable(c, seg)
    ensures var c', v' := HandleSynchronized(key, c, seg, now).0, SynchronizedView(key, c, v, seg, now);
            v'.una > v.una ==>
              && DataAcked(v, v') >= 0
              && (!c.cc.inRecovery ==> Grows(c.cc, c.opt.sendMss, DataAcked(v, v'), c'.cc))
              && (c.cc.inRecovery && v'.una < v.point ==> Deflates(c.cc, c.opt.sendMss, v'.una - v.una, c'.cc))
              && (c.cc.inRecovery && v'.una >= v.point ==> EndsRecovery(c.cc, c'.cc))
  {
    hide SyncValid, CoreValid, HandleSynchronized, SynchronizedView, RetireAcknowledged, ApplySack, UpdateSendWindow,
         AckView, Timely, SendValid, ParseOptions, Grow, Avoid, OnDuplicate, RecoveryResend, ClearRecovered, Grows, At,
         Bounded, SeqLessOrEqual;
    var blocks := ParseOptions(seg.options).value.sackBlocks;
    ArrivalCongestion(key, c, v, seg, now);
    SyncIsCore(c, v);
    CoreParts(c, v);
    BeforeResponse(c, v, seg, blocks, now);
    RetireMeaning(c, v, seg.ackno, now);
    FlightBound(c.snd, v);
    var v1 := AckView(c, v, seg.ackno, now);
    var (c1, r) := RetireAcknowledged(c, seg.ackno, now);
    var c2 := ApplySack(c1, seg.ackno, blocks);
    var c3 := c2.(snd := UpdateSendWindow(c2.snd, c2.opt, seg));
    if r.advanced {
      if !c.cc.inRecovery {
        GrowLaw(c.cc, c.opt.sendMss, r.dataBytes);
      } else {
        ComparePositions(v.ledger.isn, v.point, v1.una);
        var c4 := c3.(cc := c3.cc.(duplicateAcks := 0));
        RecoveryFrame(key, c4.(cc := PartialAck(c4.cc, c4.opt.sendMss, r.space)), now);
      }
    }
  }

  /** Any other acceptable segment: a duplicate is counted, inflates, or begins recovery as the third. */
  lemma DuplicateLaws(key: Key, c: Conn, v: View, seg: Segment, now: int)
    requires SyncValid(c, v) && c.state != TimeWait && Timely(c.rcv, c.opt, seg) && AckAcceptable(c, seg)
    ensures var c', v' := HandleSynchronized(key, c, seg, now).0, SynchronizedView(key, c, v, seg, now);
            v'.una == v.una ==>
              if !IsDuplicate(c, v, seg) then
                c'.cc == (if MovesWindow(c, seg) then c.cc.(duplicateAcks := 0) else c.cc)
              else if c.cc.inRecovery then
                c'.cc == c.cc.(duplicateAcks := c.cc.duplicateAcks + 1,
                               cwnd := Min(c.cc.cwnd + c.opt.sendMss, MAX_WINDOW))
              else if c.cc.duplicateAcks + 1 == 3 then
                BeginsRecovery(c.cc, c.opt.sendMss, v.nxt - v.una, At(v.ledger.isn, v.nxt), c'.cc)
              else c'.cc == c.cc.(duplicateAcks := c.cc.duplicateAcks + 1)
  {
    hide SyncValid, CoreValid, HandleSynchronized, SynchronizedView, MarkSacked, AckView, Timely, SendValid,
         ParseOptions, OnAdvance, RecoveryResend, ClearRecovered, At, Bounded, SeqLessOrEqual, Retire,
         HasOutstandingData;
    var blocks := ParseOptions(seg.options).value.sackBlocks;
    ArrivalCongestion(key, c, v, seg, now);
    SyncIsCore(c, v);
    CoreParts(c, v);
    RetireMeaning(c, v, seg.ackno, now);
    FlightBound(c.snd, v);
    SendEdges(c.snd, v);
    var (c1, r) := RetireAcknowledged(c, seg.ackno, now);
    if !r.advanced {
      assert c1 == c;
      var c2 := ApplySack(c, seg.ackno, blocks);
      var c3 := c2.(snd := UpdateSendWindow(c2.snd, c2.opt, seg));
      SackAndWindow(c, v, seg, blocks);
      QueueHasData(c3.snd, v);
      DuplicateCongestion(key, c, c3, seg, now);
    }
  }

  lemma SendEdges(s: SendState, v: View)
    requires SendValid(s, v)
    ensures s.una == At(v.ledger.isn, v.una) && s.nxt == At(v.ledger.isn, v.nxt)
  {
  }

  lemma QueueHasData(s: SendState, v: View)
    requires SendValid(s, v)
    ensures HasOutstandingData(s.pending) <==> DataInFlight(v)
  {
    DataIsQueued(s.pending, v.una, v.nxt, v.ledger);
  }

  /** The duplicate response, as a matter of the record alone. */
  lemma DuplicateCongestion(key: Key, c: Conn, c3: Conn, seg: Segment, now: int)
    requires c3.cc == c.cc && c3.opt == c.opt && c3.snd.una == c.snd.una && c3.snd.nxt == c.snd.nxt
    ensures var changed := c3.snd.wnd != c.snd.wnd;
            var cc' := OnDuplicate(key, c3, seg, changed, now).0.cc;
            if !IsDuplicateAck(c3, seg, changed) then cc' == (if changed then c.cc.(duplicateAcks := 0) else c.cc)
            else if c.cc.inRecovery then
              cc' == c.cc.(duplicateAcks := c.cc.duplicateAcks + 1, cwnd := Min(c.cc.cwnd + c.opt.sendMss, MAX_WINDOW))
            else if c.cc.duplicateAcks + 1 == 3 then BeginsRecovery(c.cc, c.opt.sendMss, Flight(c.snd), c.snd.nxt, cc')
            else cc' == c.cc.(duplicateAcks := c.cc.duplicateAcks + 1)
  {
    hide RecoveryResend, ClearRecovered, HasOutstandingData;
    var c4 := c3.(cc := c3.cc.(duplicateAcks := c3.cc.duplicateAcks + 1));
    RecoveryFrame(key, c4.(cc := Inflate(c4.cc, c4.opt.sendMss)), now);
    RecoveryFrame(key, c4.(cc := EnterRecovery(c4.cc, c4.opt.sendMss, Flight(c4.snd), c4.snd.nxt),
                           snd := c4.snd.(pending := ClearRecovered(c4.snd.pending))), now);
  }

  // ---------------------------------------------------------------- when something is resent at once

  /** The events that call for a resend: a partial ACK, the third duplicate, and with SACK any later one. */
  predicate CallsForResend(c: Conn, v: View, seg: Segment, una: nat) {
    if una > v.una then c.cc.inRecovery && una < v.point
    else IsDuplicate(c, v, seg) && (if c.cc.inRecovery then c.opt.sack else c.cc.duplicateAcks + 1 == 3)
  }

  /** Everything queued before the recovery point is SACKed or has been resent in the episode. */
  ghost predicate NothingToResend(c: Conn, v: View) {
    forall i: nat | i < |c.snd.pending| :: !Resendable(c.snd.pending[i], PositionOf(c.snd.pending, v.una, i), v.point)
  }

  /** The response, and whether it resends what is called for. */
  ghost predicate ResendsAsCalled(called: bool, c': Conn, fast: Option<Segment>, v': View) {
    (fast.Some? ==> called) && (fast.None? && called ==> NothingToResend(c', v'))
  }

  lemma AdvanceResend(key: Key, c: Conn, v: View, r: AckResult, now: int)
    requires SendValid(c.snd, v)
    requires c.cc.inRecovery ==>
               c.cc.recoveryPoint == At(v.ledger.isn, v.point) && v.point <= v.nxt && v.una <= v.point + REACH
    ensures var (c', fast) := OnAdvance(key, c, At(v.ledger.isn, v.una), r, now);
            ResendsAsCalled(c.cc.inRecovery && v.una < v.point, c', fast, AdvanceView(c, v, At(v.ledger.isn, v.una)))
  {
    hide SendValid, RecoveryResend, RecoverView, At, NothingToResend, Grow, ClearRecovered, SeqLessOrEqual;
    if c.cc.inRecovery {
      FlightBound(c.snd, v);
      ComparePositions(v.ledger.isn, v.point, v.una);
      if v.una < v.point {
        var c1 := c.(cc := c.cc.(duplicateAcks := 0));
        NothingLeft(key, c1.(cc := PartialAck(c1.cc, c1.opt.sendMss, r.space)), v, now);
      }
    }
  }

  /**
   An acknowledgment makes the connection resend exactly when it calls for it and there is something
   to resend before the recovery point.
   */
  lemma ResendLaw(key: Key, c: Conn, v: View, seg: Segment, now: int)
    requires SyncValid(c, v) && c.state != TimeWait && Timely(c.rcv, c.opt, seg) && AckAcceptable(c, seg)
    ensures var blocks := ParseOptions(seg.options).value.sackBlocks;
            var fast := HandleSynchronized(key, c, seg, now).1.fastRetransmit;
            var una := SynchronizedView(key, c, v, seg, now).una;
            && (fast.Some? ==> CallsForResend(c, v, seg, una))
            && (fast.None? && CallsForResend(c, v, seg, una) ==>
                  NothingToResend(Responded(key, c, seg, blocks, now).0, ProcessAckView(c, v, seg, blocks, now)))
  {
    hide SyncValid, CoreValid, HandleSynchronized, SynchronizedView, RetireAcknowledged, MarkSacked, AckView, Timely,
         SendValid, ParseOptions, OnAdvance, OnDuplicate, AdvanceView, DuplicateView, At, Bounded, SeqLessOrEqual,
         NothingToResend, HasOutstandingData, DecodePeerWindow;
    var blocks := ParseOptions(seg.options).value.sackBlocks;
    ArrivalCongestion(key, c, v, seg, now);
    ArrivalResend(key, c, seg, now);
    SyncIsCore(c, v);
    CoreParts(c, v);
    BeforeResponse(c, v, seg, blocks, now);
    RetireMeaning(c, v, seg.ackno, now);
    RetireFrame(c, seg.ackno, now);
    AckViewFrame(c, v, seg.ackno, now);
    FlightBound(c.snd, v);
    SendEdges(c.snd, v);
    var v1 := AckView(c, v, seg.ackno, now);
    var (c1, r) := RetireAcknowledged(c, seg.ackno, now);
    var c2 := ApplySack(c1, seg.ackno, blocks);
    var c3 := c2.(snd := UpdateSendWindow(c2.snd, c2.opt, seg));
    if r.advanced {
      AdvanceResend(key, c3, v1, r, now);
    } else {
      NotAdvanced(c, v, seg.ackno, now);
      QueueHasData(c3.snd, v);
      DuplicateResend(key, c3, v, seg, c3.snd.wnd != c2.snd.wnd, now);
    }
  }

  lemma DuplicateResend(key: Key, c: Conn, v: View, seg: Segment, windowChanged: bool, now: int)
    requires SendValid(c.snd, v)
    requires c.cc.inRecovery ==> c.cc.recoveryPoint == At(v.ledger.isn, v.point) && v.una <= v.point <= v.nxt
    ensures var (c', fast) := OnDuplicate(key, c, seg, windowChanged, now);
            ResendsAsCalled(IsDuplicateAck(c, seg, windowChanged)
                            && (if c.cc.inRecovery then c.opt.sack else c.cc.duplicateAcks + 1 == 3),
                            c', fast, DuplicateView(c, v, seg, windowChanged))
  {
    hide SendValid, RecoveryResend, RecoverView, BeginFastRecovery, At, NothingToResend, IsDuplicateAck, OverView,
         ClearRecovered;
    var c1 := c.(cc := c.cc.(duplicateAcks := c.cc.duplicateAcks + 1));
    if c.cc.inRecovery {
      NothingLeft(key, c1.(cc := Inflate(c1.cc, c1.opt.sendMss)), v, now);
    } else {
      BegunLeavesNothing(key, c1, v, now);
    }
  }

  lemma NotAdvanced(c: Conn, v: View, ack: u32, now: int)
    requires !RetireAcknowledged(c, ack, now).1.advanced
    ensures RetireAcknowledged(c, ack, now).0 == c && AckView(c, v, ack, now) == v
  {
  }

  lemma ArrivalResend(key: Key, c: Conn, seg: Segment, now: int)
    requires AckAcceptable(c, seg)
    ensures HandleSynchronized(key, c, seg, now).1.fastRetransmit
            == Responded(key, c, seg, ParseOptions(seg.options).value.sackBlocks, now).1
  {
    hide ParseOptions, RetireAcknowledged, ApplySack, UpdateSendWindow, OnAdvance, OnDuplicate, OnFinAcked, AfterAck,
         SeqLessOrEqual;
    var blocks := ParseOptions(seg.options).value.sackBlocks;
    var (c1, fast) := ProcessAck(key, c, seg, blocks, now);
    AfterAckFrame(key, c1, seg, fast, now);
  }

  /** A resend that finds nothing leaves nothing. */
  lemma NothingLeft(key: Key, c: Conn, v: View, now: int)
    requires SendValid(c.snd, v) && c.cc.recoveryPoint == At(v.ledger.isn, v.point) && v.una <= v.point <= v.nxt
    ensures var (c', fast) := RecoveryResend(key, c, now);
            fast.None? ==> c' == c && RecoverView(c.snd.pending, v) == v && NothingToResend(c', v)
  {
    hide SendValid, RecoveryResend, RecoverView, At, Resendable, PositionOf, LowestResendable;
    RecoveryCases(key, c, v, now);
    LowestIsResendable(c.snd.pending, v.una, v.point);
  }

  lemma BegunLeavesNothing(key: Key, c: Conn, v: View, now: int)
    requires SendValid(c.snd, v)
    ensures var (c', fast) := BeginFastRecovery(key, c, now);
            fast.None? ==> NothingToResend(c', RecoverView(ClearRecovered(c.snd.pending), OverView(v).(point := v.nxt)))
  {
    hide SendValid, RecoveryResend, RecoverView, At, NothingToResend, ClearRecovered, HalvedFlight, ClampCwnd;
    var cleared := ClearRecovered(c.snd.pending);
    ClearRecoveredSame(c.snd.pending);
    EpisodeOver(c.snd, v, cleared);
    SendEdges(c.snd, v);
    SendOrder(c.snd, v);
    var c1 := c.(cc := EnterRecovery(c.cc, c.opt.sendMss, Flight(c.snd), c.snd.nxt), snd := c.snd.(pending := cleared));
    PointIsFree(c1.snd, OverView(v), v.nxt);
    NothingLeft(key, c1, OverView(v).(point := v.nxt), now);
  }

  // ---------------------------------------------------------------- timeouts and beginnings

  /** What a due timer does: data in flight restarts from one segment, a SYN or FIN alone changes no window. */
  lemma TimeoutLaws(key: Key, c: Conn, v: View, now: int)
    requires ConnValid(c, v)
    ensures var (c', r) := PollRetransmission(key, c, now);
            && (r.Resent? && DataInFlight(v) ==> Restarts(c.cc, c.opt.sendMss, v.nxt - v.una, c'.cc))
            && (!r.Resent? || !DataInFlight(v) ==> c'.cc == c.cc)
            && (r.Resent? ==> c.snd.pending != []
                              && c'.rtt == c.rtt.(rto := Max(c.rtt.rto, Min(2 * c.snd.pending[0].interval, MAX_RTO))))
            && (!r.Resent? ==> c'.rtt == c.rtt)
  {
    hide SyncValid, SynSentValid, SynReceivedValid, ResendOldest, Pending.Deadline, DataInFlight, Flight;
    if c.snd.pending != [] {
      ResendFrame(key, c, now);
      OldestIsData(c, v);
    }
  }

  lemma OldestIsData(c: Conn, v: View)
    requires ConnValid(c, v) && c.snd.pending != []
    ensures c.snd.pending[0].IsData() <==> DataInFlight(v)
    ensures DataInFlight(v) ==> Flight(c.snd) == v.nxt - v.una
  {
    hide RecvValid, RecoveryValid, NoStall, RttEstimator.Valid, StateOf, ReceiveInvariant.OptValid;
    if c.Synchronized() {
      FlightBound(c.snd, v);
      EntryOf(c.snd.pending, v.una, v.nxt, v.ledger, 0);
      if c.snd.pending[0].isFin {
        FinIsLast(c.snd.pending, v.una, v.nxt, v.ledger);
      }
    }
  }

  /** A connection starts with ten segments of the negotiated size, whichever side opened it. */
  lemma InitialWindowLaw(key: Key, isn: u32, seg: Segment, now: int)
    requires ParseOptions(seg.options).Ok?
    ensures var c := Listen(key, isn, seg, ParseOptions(seg.options).value, now).0;
            c.cc == Congestion(10 * c.opt.sendMss, 65535, 0, false, 0, 0)
  {
    hide ParseOptions, BuildSynAckOptions, AdvertisedWindow;
  }

  lemma ConnectWindowLaw(key: Key, c: Conn, v: View, seg: Segment, now: int)
    requires SynSentValid(c, v) && CompletesConnect(c, seg)
    ensures var c' := HandleSynSent(key, c, seg, now).0;
            c'.cc == Congestion(10 * c'.opt.sendMss, 65535, 0, false, 0, 0)
  {
    hide ParseOptions, AdvertisedWindow, RetireAcknowledged, At, RttEstimator.Valid, SynEntry;
    var opt := Negotiate(ParseOptions(seg.options).value);
    RetireFrame(c.(remoteIsn := seg.seqno, remoteKnown := true, rcv := c.rcv.(nxt := At(seg.seqno, 1)),
                   opt := opt, cc := c.cc.(cwnd := InitialCwnd(opt.sendMss)), state := Established), seg.ackno, now);
  }

  // ---------------------------------------------------------------- every event

  datatype Kind = Reset | Repeat | Other

  predicate Acknowledging(c: Conn, e: Event) {
    e.Deliver? && c.Synchronized() && c.state != TimeWait && AckAcceptable(c, e.segment)
  }

  /** What an acceptable segment is to the count of duplicate ACKs, when it leaves `una` acknowledged. */
  function AckKind(c: Conn, v: View, seg: Segment, una: nat): Kind {
    if una > v.una then Reset
    else if IsDuplicate(c, v, seg) then Repeat
    else if MovesWindow(c, seg) then Reset
    else Other
  }

  /** What the event is to the count. */
  function KindOf(key: Key, c: Conn, v: View, e: Event, now: int): Kind {
    if Acknowledging(c, e) then AckKind(c, v, e.segment, StepView(key, c, v, e, now).una)
    else if e.PollRetransmissions? && PollRetransmission(key, c, now).1.Resent? && DataInFlight(v) then Reset
    else Other
  }

  function Counted(k: Kind, n: nat): nat {
    match k
    case Reset => 0
    case Repeat => n + 1
    case Other => n
  }

  /** The count is that of the duplicates since the last reset, and recovery begins exactly on the third. */
  predicate CountedRightly(cc: Congestion, k: Kind, cc': Congestion) {
    && cc'.duplicateAcks == Counted(k, cc.duplicateAcks)
    && (!cc.inRecovery ==> (cc'.inRecovery <==> k == Repeat && cc.duplicateAcks == 2))
  }

  lemma AckIsCounted(key: Key, c: Conn, v: View, seg: Segment, now: int)
    requires SyncValid(c, v) && c.state != TimeWait && Timely(c.rcv, c.opt, seg) && AckAcceptable(c, seg)
    ensures var c', v' := HandleSynchronized(key, c, seg, now).0, SynchronizedView(key, c, v, seg, now);
            CountedRightly(c.cc, AckKind(c, v, seg, v'.una), c'.cc)
  {
    hide SyncValid, Timely, HandleSynchronized, SynchronizedView, IsDuplicate, MovesWindow, AckAcceptable, DataAcked,
         OnePerWindow;
    AdvanceLaws(key, c, v, seg, now);
    DuplicateLaws(key, c, v, seg, now);
    UnaStays(key, c, v, seg, now);
  }

  lemma UnaStays(key: Key, c: Conn, v: View, seg: Segment, now: int)
    requires SyncValid(c, v) && c.state != TimeWait && Timely(c.rcv, c.opt, seg)
    ensures SynchronizedView(key, c, v, seg, now).una >= v.una
  {
    hide SyncValid, Timely, HandleSynchronized, SynchronizedView, ConnValid, AllGenuine;
    HandleSynchronizedKeepsValid(key, c, v, seg, now);
  }

  lemma OthersKeepRecord(key: Key, c: Conn, seg: Segment, now: int)
    requires c.Synchronized() && (c.state == TimeWait || !AckAcceptable(c, seg))
    ensures Handle(key, c, seg, now).0.cc == c.cc
  {
    hide ParseOptions, MakePureAck, SeqLessOrEqual;
  }

  lemma OpeningKeepsRecord(key: Key, c: Conn, v: View, seg: Segment, now: int)
    requires SynSentValid(c, v) || SynReceivedValid(c, v)
    ensures Handle(key, c, seg, now).0.cc.duplicateAcks == c.cc.duplicateAcks == 0
    ensures !c.cc.inRecovery && !Handle(key, c, seg, now).0.cc.inRecovery
  {
    hide RetireAcknowledged, ParseOptions, InitialCwnd, MakeSegment, MakeSynAck, At, DecodePeerWindow,
         RttEstimator.Valid, ReceiveInvariant.OptValid, SynEntry;
    if ParseOptions(seg.options).Ok? {
      var opt := Negotiate(ParseOptions(seg.options).value);
      RetireFrame(c.(remoteIsn := seg.seqno, remoteKnown := true, rcv := c.rcv.(nxt := At(seg.seqno, 1)),
                     opt := opt, cc := c.cc.(cwnd := InitialCwnd(opt.sendMss)), state := Established), seg.ackno, now);
    }
    RetireFrame(c.(state := Established, rcv := c.rcv.(nxt := At(c.remoteIsn, 1)),
                   snd := c.snd.(una := c.localIsn, nxt := At(c.localIsn, 1))), At(c.localIsn, 1), now);
  }

  /** Calls and probes leave the congestion record alone. */
  lemma CallsKeepRecord(key: Key, c: Conn, e: Event, now: int)
    requires e.Write? || e.Close? || e.PollProbes?
    ensures Step(key, c, e, now).0.cc == c.cc
  {
    hide Schedule, SendCheck, MaybeSequenceFin, UpdatePersist, PersistEligible, MakeSegment;
    match e {
      case Write(payload) => ScheduleFrame(key, Enqueue(c, payload), now);
      case Close =>
        SendPhase.FinFrame(key, Requested(c), now);
        UpdatePersistFrame(MaybeSequenceFin(key, Requested(c), now).0, now);
      case PollProbes =>
    }
  }

  lemma StepCounts(key: Key, c: Conn, v: View, e: Event, now: int)
    requires ConnValid(c, v) && TimelyEvent(c, e)
    ensures CountedRightly(c.cc, KindOf(key, c, v, e, now), Step(key, c, e, now).0.cc)
  {
    hide SyncValid, SynSentValid, SynReceivedValid, Timely, HandleSynchronized, HandleSynSent, HandleSynReceived, Sent,
         SynSentView, SynReceivedView, SynchronizedView, PollRetransmission, PollView, MakeOutgoingData, BeginClose,
         PollPersist, AckKind, AckAcceptable, DataInFlight, SendView, CloseView, HandleTimeWait;
    match e {
      case Deliver(seg) =>
        if c.state == SynSent || c.state == SynReceived {
          OpeningKeepsRecord(key, c, v, seg, now);
        } else if Acknowledging(c, e) {
          AckHasNoReset(c, seg);
          AckIsCounted(key, c, v, seg, now);
        } else {
          OthersKeepRecord(key, c, seg, now);
        }
      case PollRetransmissions => TimeoutLaws(key, c, v, now);
      case _ => CallsKeepRecord(key, c, e, now);
    }
  }

  lemma AckHasNoReset(c: Conn, seg: Segment)
    requires AckAcceptable(c, seg)
    ensures !seg.flags.rst
  {
  }

  // ---------------------------------------------------------------- runs

  /** The kinds of the events of a run. */
  function RunKinds(key: Key, c: Conn, v: View, inputs: seq<Input>): seq<Kind>
    decreases |inputs|
  {
    if inputs == [] || c.removal then []
    else
      var i := inputs[0];
      [KindOf(key, c, v, i.event, i.now)]
      + RunKinds(key, Step(key, c, i.event, i.now).0, StepView(key, c, v, i.event, i.now), inputs[1..])
  }

  function CountAll(kinds: seq<Kind>, n: nat): nat
    decreases |kinds|
  {
    if kinds == [] then n else CountAll(kinds[1..], Counted(kinds[0], n))
  }

  /** Over every run the counter is the number of duplicates since the last reset. */
  lemma {:induction false} RunCounts(key: Key, c: Conn, v: View, inputs: seq<Input>)
    requires (c.removal || ConnValid(c, v)) && TimelyRun(key, c, inputs)
    ensures Run(key, c, inputs).0.cc.duplicateAcks == CountAll(RunKinds(key, c, v, inputs), c.cc.duplicateAcks)
    decreases |inputs|
  {
    hide ConnValid, Step, StepView, TimelyEvent, KindOf, Genuine, Then;
    if inputs != [] && !c.removal {
      var i := inputs[0];
      var c1, v1 := Step(key, c, i.event, i.now).0, StepView(key, c, v, i.event, i.now);
      StepKeepsValid(key, c, v, i.event, i.now);
      StepCounts(key, c, v, i.event, i.now);
      RunCounts(key, c1, v1, inputs[1..]);
      assert RunKinds(key, c, v, inputs)[1..] == RunKinds(key, c1, v1, inputs[1..]);
    }
  }

  /** Three in a row, with anything that is not a reset between them. */
  predicate ThirdInARow(kinds: seq<Kind>, n: nat) {
    kinds != [] && kinds[|kinds| - 1] == Repeat && CountAll(kinds, n) == 3
  }

  /**
   When an episode begins: a run that was not in recovery enters it with its last event exactly on
   the third duplicate.
   */
  lemma EpisodeBegins(key: Key, c: Conn, v: View, inputs: seq<Input>, last: Input)
    requires ConnValid(c, v) && TimelyRun(key, c, inputs)
    requires var c1 := Run(key, c, inputs).0;
             !c1.removal && !c1.cc.inRecovery && TimelyEvent(c1, last.event)
    ensures var c1, v1 := Run(key, c, inputs).0, RunView(key, c, v, inputs);
            var k := KindOf(key, c1, v1, last.event, last.now);
            Step(key, c1, last.event, last.now).0.cc.inRecovery <==>
            ThirdInARow(RunKinds(key, c, v, inputs) + [k], c.cc.duplicateAcks)
  {
    hide ConnValid, Step, StepView, TimelyEvent, KindOf, Genuine, Run, RunView, TimelyRun, RunKinds, Extends;
    var c1, v1 := Run(key, c, inputs).0, RunView(key, c, v, inputs);
    FlightIsNear(c, v);
    RunKeepsValid(key, c, v, inputs);
    RunCounts(key, c, v, inputs);
    StepCounts(key, c1, v1, last.event, last.now);
    CountLast(RunKinds(key, c, v, inputs), KindOf(key, c1, v1, last.event, last.now), c.cc.duplicateAcks);
  }

  lemma {:induction false} CountLast(kinds: seq<Kind>, k: Kind, n: nat)
    ensures CountAll(kinds + [k], n) == Counted(k, CountAll(kinds, n))
    decreases |kinds|
  {
    if kinds == [] {
      assert kinds + [k] == [k] && [k][1..] == [];
    } else {
      assert (kinds + [k])[1..] == kinds[1..] + [k];
      CountLast(kinds[1..], k, Counted(kinds[0], n));
    }
  }

  // ---------------------------------------------------------------- congestion avoidance over runs

  /** Every state of the run is in congestion avoidance. */
  predicate Avoiding(key: Key, c: Conn, inputs: seq<Input>)
    decreases |inputs|
  {
    && c.Synchronized() && !c.removal && !c.cc.inRecovery && c.cc.cwnd >= c.cc.ssthresh
    && (inputs != [] ==> Avoiding(key, Step(key, c, inputs[0].event, inputs[0].now).0, inputs[1..]))
  }

  lemma NothingCompleted(c: Conn, v: View, v': View)
    requires Bounded(c.cc, c.opt.sendMss) && SendValid(c.snd, v) && v'.una == v.una && Extends(v, v')
    ensures DataAcked(v, v') == 0 && OnePerWindow(c.cc.cwnd, c.cc.acked, 0, c.opt.sendMss, c.cc.cwnd, c.cc.acked)
  {
    assert Completes(c.cc.cwnd, c.cc.acked, 0, c.opt.sendMss, c.cc.cwnd, c.cc.acked, 0);
  }

  /** One event between two states of congestion avoidance. */
  lemma AvoidingStep(key: Key, c: Conn, v: View, e: Event, now: int)
    requires SyncValid(c, v) && TimelyEvent(c, e) && Avoiding(key, c, []) && Avoiding(key, Step(key, c, e, now).0, [])
    ensures var c', v' := Step(key, c, e, now).0, StepView(key, c, v, e, now);
            && DataAcked(v, v') >= 0
            && OnePerWindow(c.cc.cwnd, c.cc.acked, DataAcked(v, v'), c.opt.sendMss, c'.cc.cwnd, c'.cc.acked)
  {
    hide SyncValid, CoreValid, Timely, HandleSynchronized, SynchronizedView, PollRetransmission, PollView,
         MakeOutgoingData, BeginClose, PollPersist, AckAcceptable, DataInFlight, SendView, CloseView, HandleTimeWait,
         Sent, DataAcked, OnePerWindow, IsDuplicate, MovesWindow, Bounded, HandleSynSent, HandleSynReceived, Quiet,
         SendValid, Genuine, Extends;
    var c', v' := Step(key, c, e, now).0, StepView(key, c, v, e, now);
    SyncIsCore(c, v);
    CoreParts(c, v);
    SyncIsValid(c, v);
    SyncState(c, v);
    StepKeepsValid(key, c, v, e, now);
    if Acknowledging(c, e) {
      AckHasNoReset(c, e.segment);
      AdvanceLaws(key, c, v, e.segment, now);
      DuplicateLaws(key, c, v, e.segment, now);
      UnaStays(key, c, v, e.segment, now);
      if v'.una == v.una {
        NothingCompleted(c, v, v');
      }
    } else {
      assert v'.una == v.una && c'.cc == c.cc by { QuietEvent(key, c, v, e, now); }
      NothingCompleted(c, v, v');
    }
  }

  /** An event that is no acknowledgment and no timeout of data. */
  lemma QuietEvent(key: Key, c: Conn, v: View, e: Event, now: int)
    requires SyncValid(c, v) && !Acknowledging(c, e)
    requires var c' := Step(key, c, e, now).0; c'.cc.cwnd >= c'.cc.ssthresh
    ensures Step(key, c, e, now).0.cc == c.cc && StepView(key, c, v, e, now).una == v.una
  {
    hide SyncValid, CoreValid, HandleSynchronized, PollRetransmission, MakeOutgoingData, BeginClose, PollPersist,
         AckAcceptable, DataInFlight, SendView, CloseView, PollView, Sent, SynchronizedView, SynSentView,
         SynReceivedView;
    SyncIsValid(c, v);
    SyncState(c, v);
    match e {
      case Deliver(seg) =>
        OthersKeepRecord(key, c, seg, now);
        NotAcknowledged(key, c, v, seg, now);
      case PollRetransmissions =>
        TimeoutLaws(key, c, v, now);
        TwoEndpoints.LocalIsQuiet(key, c, v, e, now);
        SyncIsCore(c, v);
        CoreParts(c, v);
        RestartIsSlow(c.cc, c.opt.sendMss, v.nxt - v.una, Step(key, c, e, now).0.cc);
      case _ =>
        CallsKeepRecord(key, c, e, now);
        TwoEndpoints.LocalIsQuiet(key, c, v, e, now);
    }
  }

  lemma NotAcknowledged(key: Key, c: Conn, v: View, seg: Segment, now: int)
    requires c.Synchronized() && (c.state == TimeWait || !AckAcceptable(c, seg))
    ensures HandleView(key, c, v, seg, now) == v
  {
    hide ParseOptions, SeqLessOrEqual;
  }

  /** A restart leaves congestion avoidance. */
  lemma RestartIsSlow(cc: Congestion, mss: nat, flight: int, cc': Congestion)
    requires Bounded(cc, mss) && flight >= 0
    ensures Restarts(cc, mss, flight, cc') ==> cc'.cwnd < cc'.ssthresh
  {
  }

  /**
   Congestion avoidance over every run: whatever the sizes and the order of the acknowledgments,
   every whole window of acknowledged data adds exactly one segment.
   */
  lemma {:induction false} AvoidanceRun(key: Key, c: Conn, v: View, inputs: seq<Input>)
    requires ConnValid(c, v) && TimelyRun(key, c, inputs) && Avoiding(key, c, inputs)
    ensures var c', v' := Run(key, c, inputs).0, RunView(key, c, v, inputs);
            && DataAcked(v, v') >= 0
            && OnePerWindow(c.cc.cwnd, c.cc.acked, DataAcked(v, v'), c.opt.sendMss, c'.cc.cwnd, c'.cc.acked)
    decreases |inputs|
  {
    hide SyncValid, CoreValid, Step, StepView, TimelyEvent, DataAcked, OnePerWindow, Genuine, SynSentValid,
         SynReceivedValid, Then;
    SyncIsCore(c, v);
    CoreParts(c, v);
    if inputs == [] {
      SameExtends(v);
      NothingCompleted(c, v, v);
    } else {
      var i := inputs[0];
      var c1, v1 := Step(key, c, i.event, i.now).0, StepView(key, c, v, i.event, i.now);
      StepKeepsValid(key, c, v, i.event, i.now);
      AvoidingNow(key, c1, inputs[1..]);
      AvoidingStep(key, c, v, i.event, i.now);
      AvoidanceRun(key, c1, v1, inputs[1..]);
      SizesStay(key, c, v, i.event, i.now);
      var c', v' := Run(key, c, inputs).0, RunView(key, c, v, inputs);
      RunExtends(key, c1, v1, inputs[1..]);
      AckedAdds(v, v1, v');
      BoundedWindow(c.cc, c.opt.sendMss);
      OnePerWindowAdds(c.cc.cwnd, c.cc.acked, DataAcked(v, v1), c.opt.sendMss, c1.cc.cwnd, c1.cc.acked,
                       DataAcked(v1, v'),
                       c'.cc.cwnd, c'.cc.acked);
    }
  }

  lemma SameExtends(v: View)
    ensures Extends(v, v)
  {
  }

  lemma AvoidingNow(key: Key, c: Conn, inputs: seq<Input>)
    requires Avoiding(key, c, inputs)
    ensures Avoiding(key, c, []) && c.Synchronized() && !c.removal
  {
  }

  lemma SizesStay(key: Key, c: Conn, v: View, e: Event, now: int)
    requires SyncValid(c, v)
    ensures Step(key, c, e, now).0.opt == c.opt
  {
    hide SyncValid, CoreValid, StepState, ProcessAck, AfterAck, ProcessAckView, FastOk, ParseOptions, SeqLessOrEqual,
         OnlyAck, EpisodeKept, Schedule, MaybeSequenceFin, UpdatePersist, OwnedBytes, ResendOldest, Pending.Deadline,
         PersistEligible, MakePureAck, MakeSegment;
    SyncState(c, v);
    match e {
      case Deliver(seg) =>
        if c.state != TimeWait && AckAcceptable(c, seg) {
          var blocks := ParseOptions(seg.options).value.sackBlocks;
          var (c1, fast) := ProcessAck(key, c, seg, blocks, now);
          ProcessAckKeepsValid(key, c, v, seg, blocks, now);
          AfterAckFrame(key, c1, seg, fast, now);
        }
      case Write(payload) => ScheduleFrame(key, Enqueue(c, payload), now);
      case Close =>
        SendPhase.FinFrame(key, Requested(c), now);
        UpdatePersistFrame(MaybeSequenceFin(key, Requested(c), now).0, now);
      case PollRetransmissions =>
        if c.snd.pending != [] {
          ResendFrame(key, c, now);
        }
      case PollProbes =>
    }
  }

  lemma RunExtends(key: Key, c: Conn, v: View, inputs: seq<Input>)
    requires ConnValid(c, v) && TimelyRun(key, c, inputs)
    ensures Extends(v, RunView(key, c, v, inputs))
  {
    hide ConnValid, Run, RunView, TimelyRun, Genuine, Extends;
    FlightIsNear(c, v);
    RunKeepsValid(key, c, v, inputs);
  }

  lemma BoundedWindow(cc: Congestion, mss: nat)
    requires Bounded(cc, mss)
    ensures cc.cwnd <= MAX_WINDOW
  {
  }

  /** Acknowledged data adds up, also while the application writes more. */
  lemma AckedAdds(v: View, v1: View, v': View)
    ensures DataAcked(v, v1) + DataAcked(v1, v') == DataAcked(v, v')
  {
  }
}
