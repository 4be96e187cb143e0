/** Payload and FIN of an arriving segment: insertion, release and the peer's FIN. */
module ReceivePhase {
  import opened Primitives
  import opened SequenceSpace
  import opened Reassembly
  import opened TcpSegments
  import opened TcpTypes
  import opened Receiving
  import opened RttEstimator
  import opened CongestionControl
  import opened TcpEngine
  import opened ReceiveInvariant
  import opened ConnInvariant
  import opened AckPhase

  /** The parser's length bound, and near enough for the window test to be exact. */
  predicate Timely(r: RecvState, opt: Negotiated, seg: Segment) {
    |seg.payload| <= 65535 && InReach(StartOffset(r.nxt, seg.seqno), |seg.payload|, LogicalWindow(r, opt))
  }

  function ReceiveView(c: Conn, v: View, seg: Segment, now: int): View {
    var got := Receive(c, seg, now);
    v.(rcv := v.rcv + |got.accepted| + (if got.peerClosed then 1 else 0),
       delivered := v.delivered + got.accepted, peerFin := v.peerFin || got.peerClosed)
  }

  /** A retained FIN and the payload before it still fit what was promised. */
  lemma FinLeavesRoom(r: RecvState, opt: Negotiated, seg: Segment)
    requires LogicalWindow(r, opt) <= RECEIVE_CAPACITY && |seg.payload| <= 65535
    requires FinInWindow(r.nxt, LogicalWindow(r, opt), At(seg.seqno, |seg.payload|))
    ensures 1 <= LogicalWindow(r, opt)
    ensures |UsableAt(r, opt, seg.seqno, seg.payload).1| + 1 <= LogicalWindow(r, opt)
  {
    hide LogicalWindow, FinInWindow;
    FinTestExact(r.nxt, LogicalWindow(r, opt), At(seg.seqno, |seg.payload|));
    SubAt(r.nxt, seg.seqno, |seg.payload|);
  }

  /** Absorbing a segment keeps the buffer valid and adds only bytes of the segment. */
  lemma AbsorbKeepsValid(c: Conn, seg: Segment)
    requires OptValid(c.opt) && BufferValid(c.rcv, c.opt) && Timely(c.rcv, c.opt, seg)
    ensures var r := Absorb(c, seg);
            && Canonical(Runs(r), Limit(c.opt)) && |r.fragments| <= MAX_FRAGMENTS
            && BufferedBytes(r) <= RECEIVE_CAPACITY && r.nxt == c.rcv.nxt
  {
    hide LogicalWindow, WindowTest, FinInWindow, Accept, UsableAt, OptValid, InReach, Canonical, StartOffset, Overlaps;
    AdvertisedWindowMeaning(c.rcv, c.opt);
    RunsTotal(c.rcv.fragments, c.rcv.nxt);
    TotalFits(Runs(c.rcv), 0, Limit(c.opt), 1) by { CanonicalIsSpaced(Runs(c.rcv), Limit(c.opt)); }
    assert Overlaps(c.rcv, c.opt, seg.seqno, seg.payload) <==> AnyPayloadInWindow(c, seg) by { OverlapsIsAny(c, seg); }
    if AnyPayloadInWindow(c, seg) {
      AcceptMeaning(c.rcv, c.opt, seg.seqno, seg.payload, 0);
      AcceptFrame(c.rcv, c.opt, seg);
      var r' := AcceptSegment(c.rcv, c.opt, seg.seqno, seg.payload);
      RunsTotal(r'.fragments, r'.nxt);
      TotalFits(Runs(r'), 0, Limit(c.opt), 1) by { CanonicalIsSpaced(Runs(r'), Limit(c.opt)); }
    }
    if FinAccepted(c, seg) {
      FinLeavesRoom(c.rcv, c.opt, seg);
    }
  }

  lemma CanonicalIsSpaced(rs: seq<Run>, hi: nat)
    requires Canonical(rs, hi)
    ensures Spaced(rs, 0, hi, 1)
  {
  }

  lemma OverlapsIsAny(c: Conn, seg: Segment)
    ensures Overlaps(c.rcv, c.opt, seg.seqno, seg.payload) <==> AnyPayloadInWindow(c, seg)
  {
  }

  lemma AcceptFrame(r: RecvState, opt: Negotiated, seg: Segment)
    ensures var r' := AcceptSegment(r, opt, seg.seqno, seg.payload); r' == r.(fragments := r'.fragments)
  {
  }

  /** Every byte buffered after absorbing was buffered before or is a usable byte of the segment. */
  lemma AbsorbedBytes(c: Conn, seg: Segment, o: nat)
    requires OptValid(c.opt) && BufferValid(c.rcv, c.opt) && Timely(c.rcv, c.opt, seg)
    requires Held(Absorb(c, seg), o).Some?
    ensures var d := StartOffset(c.rcv.nxt, seg.seqno);
            || Held(Absorb(c, seg), o) == Held(c.rcv, o)
            || (0 <= o - d < |seg.payload| && Held(Absorb(c, seg), o) == Some(seg.payload[o - d]))
  {
    hide LogicalWindow, WindowTest, FinInWindow, Accept, OptValid, InReach, Canonical, BufferValid, StartOffset, ByteAt,
         AnyPayloadInWindow;
    OverlapsIsAny(c, seg);
    AbsorbCases(c, seg);
    if AnyPayloadInWindow(c, seg) {
      AcceptMeaning(c.rcv, c.opt, seg.seqno, seg.payload, o);
    }
  }

  lemma AbsorbCases(c: Conn, seg: Segment)
    ensures Runs(Absorb(c, seg)) ==
            Runs(if AnyPayloadInWindow(c, seg) then AcceptSegment(c.rcv, c.opt, seg.seqno, seg.payload) else c.rcv)
  {
  }

  /** The buffer, `rcv_nxt` and the bytes handed over, before the FIN is looked at. */
  function Released(c: Conn, seg: Segment): (seq<u8>, RecvState) {
    var r := Absorb(c, seg);
    var (bytes, nxt, rest) := Release(r.nxt, r.fragments);
    (bytes, r.(nxt := nxt, fragments := rest))
  }

  lemma ReleasedKeepsValid(c: Conn, seg: Segment)
    requires OptValid(c.opt) && BufferValid(c.rcv, c.opt) && Timely(c.rcv, c.opt, seg)
    ensures var (bytes, r) := Released(c, seg);
            && BufferValid(r, c.opt) && r.nxt == At(c.rcv.nxt, |bytes|)
            && r.pendingFin == Absorb(c, seg).pendingFin
            && (r.fragments != [] ==> Sub(r.fragments[0].start, r.nxt) > 0)
  {
    hide Absorb, Release, Canonical, OptValid, Timely, At;
    AbsorbKeepsValid(c, seg);
    ReleaseMeaning(Absorb(c, seg), Limit(c.opt), 0);
  }

  /** The pieces of `Receive` by name. */
  lemma ReceiveCases(c: Conn, seg: Segment, now: int)
    ensures var (bytes, r) := Released(c, seg);
            var got := Receive(c, seg, now);
            && got.accepted == bytes && got.peerClosed == (r.pendingFin == Some(r.nxt))
            && got.conn == (if got.peerClosed then ConsumeFin(c.(rcv := r), now) else c.(rcv := r))
  {
    hide Absorb, Release, MostRecent, ConsumeFin, WindowTest;
  }

  lemma PendingFinCases(c: Conn, seg: Segment)
    ensures Absorb(c, seg).pendingFin
            == (if FinAccepted(c, seg) then Some(At(seg.seqno, |seg.payload|)) else c.rcv.pendingFin)
  {
    hide WindowTest, FinAccepted;
  }

  /** Stepping over the peer's FIN. */
  lemma ConsumeFinKeepsBuffer(c: Conn, now: int)
    requires OptValid(c.opt) && BufferValid(c.rcv, c.opt)
    requires c.rcv.fragments != [] ==> Sub(c.rcv.fragments[0].start, c.rcv.nxt) > 0
    ensures var c' := ConsumeFin(c, now);
            && BufferValid(c'.rcv, c.opt) && c'.rcv.nxt == At(c.rcv.nxt, 1) && c'.rcv.pendingFin.None?
  {
    hide Canonical, At;
    StepOverFin(c.rcv, Limit(c.opt), 0);
  }

  /** The peer's FIN takes exactly the edges of section 3.3.2 of RFC 9293. */
  lemma ConsumeFinState(c: Conn, v: View, now: int)
    requires SendValid(c.snd, v) && c.state == StateOf(v) && c.Synchronized() && !c.removal
    requires (c.state == TimeWait <==> c.timeWait.Some?) && !v.peerFin && !v.passive
    ensures var c', v' := ConsumeFin(c, now), v.(peerFin := true);
            && c'.state == StateOf(v') && (c'.state == TimeWait <==> c'.timeWait.Some?)
            && c' == c.(rcv := c'.rcv, state := c'.state, timeWait := c'.timeWait)
            && ((c.state == Established && c'.state == CloseWait) || (c.state == FinWait1 && c'.state == Closing)
                || (c.state == FinWait2 && c'.state == TimeWait))
  {
    hide SendValid, At;
    if v.FinAcked() {
      TimeWaitFindsEmptyQueue(c.(rcv := c.rcv.(nxt := At(c.rcv.nxt, 1), pendingFin := None)), v, now);
    }
  }

  /** Receiving keeps the invariant; what is handed over is what `rcv_nxt` moved by. */
  lemma ReceiveKeepsValid(c: Conn, v: View, seg: Segment, now: int)
    requires CoreValid(c, v) && StepState(c, v) && Timely(c.rcv, c.opt, seg)
    ensures var got := Receive(c, seg, now);
            var v' := ReceiveView(c, v, seg, now);
            && CoreValid(got.conn, v') && StepState(got.conn, v')
            && got.conn == c.(rcv := got.conn.rcv, state := got.conn.state, timeWait := got.conn.timeWait)
            && (got.peerClosed ==> !v.peerFin)
  {
    hide SendValid, BufferValid, OptValid, Timely, RttEstimator.Valid, Bounded, Released, ConsumeFin, Receive, At,
         StateOf, Absorb;
    var (bytes, r) := Released(c, seg);
    ReleasedKeepsValid(c, seg);
    ReceiveCases(c, seg, now);
    PendingFinCases(c, seg);
    AtAt(v.peerIsn, v.rcv, |bytes|);
    var v' := ReceiveView(c, v, seg, now);
    SendViewFrame(c.snd, v, v');
    if Receive(c, seg, now).peerClosed {
      FinNotYetConsumed(c, v, seg);
      var c1 := c.(rcv := r);
      ConsumeFinKeepsBuffer(c1, now);
      ConsumeFinState(c1, v, now);
      StateIgnores(v.(peerFin := true), v');
      AtAt(v.peerIsn, v.rcv + |bytes|, 1);
    } else {
      StateIgnores(v, v');
      if Absorb(c, seg).pendingFin.Some? {
        FinNotYetConsumed(c, v, seg);
      }
    }
  }

  lemma FinNotYetConsumed(c: Conn, v: View, seg: Segment)
    requires RecvValid(c, v) && StepState(c, v) && Absorb(c, seg).pendingFin.Some?
    requires v.passive ==> v.peerFin
    ensures !v.peerFin && !v.passive && !c.removal
  {
    hide WindowTest, FinInWindow, BufferValid, OptValid;
  }

  /** The receive fields of the view play no part in the send side. */
  lemma SendViewFrame(s: SendState, v: View, v': View)
    requires SendValid(s, v) && v'.ledger == v.ledger && v'.una == v.una && v'.nxt == v.nxt && v'.finSent == v.finSent
    ensures SendValid(s, v')
  {
  }

  lemma StateIgnores(v: View, v': View)
    requires v'.ledger == v.ledger && v'.una == v.una && v'.finSent == v.finSent
    requires v'.peerFin == v.peerFin && v'.passive == v.passive
    ensures StateOf(v') == StateOf(v) && v'.FinAcked() == v.FinAcked()
  {
  }

  /**
   Exactly when `Receive` hands bytes over: the byte at `rcv_nxt` is buffered already, or the
   segment brings it and a fragment slot is free.
   */
  lemma HandsOverExactly(c: Conn, seg: Segment, now: int)
    requires OptValid(c.opt) && BufferValid(c.rcv, c.opt) && Timely(c.rcv, c.opt, seg) && AnyPayloadInWindow(c, seg)
    ensures Receive(c, seg, now).accepted != [] <==>
            Held(c.rcv, 0).Some? || (StartOffset(c.rcv.nxt, seg.seqno) <= 0 && |c.rcv.fragments| < MAX_FRAGMENTS)
  {
    hide LogicalWindow, WindowTest, FinInWindow, Accept, OptValid, Canonical, BufferValid, ByteAt, Absorb, Release,
         AnyPayloadInWindow, InReach, Receive;
    BufferCap(c.rcv, c.opt);
    OverlapsIsAny(c, seg);
    AbsorbCases(c, seg);
    AcceptMeaning(c.rcv, c.opt, seg.seqno, seg.payload, 0);
    AbsorbKeepsValid(c, seg);
    ReleaseMeaning(Absorb(c, seg), Limit(c.opt), 0);
    ReceiveCases(c, seg, now);
  }

  lemma BufferCap(r: RecvState, opt: Negotiated)
    requires BufferValid(r, opt)
    ensures |r.fragments| <= MAX_FRAGMENTS
  {
  }

  /**
   Progress: with a free fragment slot and four free bytes, a segment in reach that covers
   `rcv_nxt` always moves it.
   */
  lemma ReceiveProgress(c: Conn, seg: Segment, now: int)
    requires OptValid(c.opt) && BufferValid(c.rcv, c.opt) && Timely(c.rcv, c.opt, seg)
    requires |c.rcv.fragments| < MAX_FRAGMENTS && BufferedBytes(c.rcv) + 4 <= RECEIVE_CAPACITY
    requires StartOffset(c.rcv.nxt, seg.seqno) <= 0 < StartOffset(c.rcv.nxt, seg.seqno) + |seg.payload|
    ensures AnyPayloadInWindow(c, seg) && Receive(c, seg, now).accepted != []
  {
    hide LogicalWindow, WindowTest, FinInWindow, Accept, OptValid, Canonical, BufferValid, ByteAt, Absorb, Release;
    AdvertisedWindowMeaning(c.rcv, c.opt);
    WindowTestExactness(c.rcv.nxt, LogicalWindow(c.rcv, c.opt), seg.seqno, |seg.payload|);
    OverlapsIsAny(c, seg);
    AbsorbCases(c, seg);
    AcceptMeaning(c.rcv, c.opt, seg.seqno, seg.payload, 0);
    AbsorbKeepsValid(c, seg);
    ReleaseMeaning(Absorb(c, seg), Limit(c.opt), 0);
    ReceiveCases(c, seg, now);
  }
}
