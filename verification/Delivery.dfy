/**
 One endpoint receives what the other one sent.

 `Follows` ties the receive side of a connection to the history of its peer: what was delivered
 is a prefix of what the peer's application wrote, what is buffered is the peer's bytes at their
 positions, and the end of stream was signalled only after all of them.
 */
module Delivery {
  import opened Primitives
  import opened SequenceSpace
  import opened Reassembly
  import opened TcpOptions
  import opened TcpSegments
  import opened TcpTypes
  import opened Receiving
  import opened RttEstimator
  import opened CongestionControl
  import opened Sending
  import opened TcpEngine
  import opened PendingQueue
  import opened ReceiveInvariant
  import opened ConnInvariant
  import opened AckPhase
  import opened ReceivePhase
  import opened ConnSteps
  import opened ConnRuns

  /** How far behind a segment may be: half the sequence space, less one receive buffer. */
  const MAX_AGE: nat := HALF - RECEIVE_CAPACITY

  predicate Recent(pos: nat, ackPos: nat, r: View) { r.rcv <= pos + MAX_AGE && r.una <= ackPos + MAX_AGE }

  /** The byte at distance `o` from `rcv` is the peer's, if there is one. */
  predicate FaithfulAt(b: Option<u8>, p: nat, s: View) {
    b.Some? ==> 1 <= p < s.nxt && p - 1 < |s.ledger.stream| && b.value == s.ledger.stream[p - 1]
  }

  ghost predicate Faithful(r: RecvState, rcv: nat, s: View) { forall o: nat :: FaithfulAt(Held(r, o), rcv + o, s) }

  predicate FinFaithful(fin: Option<u32>, s: View) {
    fin.Some? ==> s.finSent && fin.value == At(s.ledger.isn, 1 + |s.ledger.stream|) && 2 + |s.ledger.stream| <= s.nxt
  }

  /** Positions and delivered bytes of the receiver `r` against the history of its peer `s`. */
  predicate Prefixed(r: View, s: View) {
    && r.peerIsn == s.ledger.isn && 1 <= r.rcv <= s.nxt && s.una <= r.rcv && s.nxt <= s.una + REACH
    && r.rcv == 1 + |r.delivered| + (if r.peerFin then 1 else 0)
    && r.delivered <= s.ledger.stream
    && (r.peerFin ==> s.finSent && r.delivered == s.ledger.stream)
  }

  /** Before the peer is known nothing has been received. */
  predicate Untouched(v: View) { !v.peerKnown && v.delivered == [] && !v.peerFin }

  ghost predicate Follows(r: RecvState, v: View, s: View) {
    if v.peerKnown then Prefixed(v, s) && Faithful(r, v.rcv, s) && FinFaithful(r.pendingFin, s)
    else Untouched(v) && s.una == 0
  }

  // ---------------------------------------------------------------- the window test is exact

  lemma OffsetOfPosition(isn: u32, rcv: nat, pos: nat)
    requires rcv < pos + HALF && pos <= rcv + HALF
    ensures StartOffset(At(isn, rcv), At(isn, pos)) == pos - rcv
  {
    if rcv <= pos {
      SubOfPositions(isn, pos, rcv);
    } else {
      SubOfPositions(isn, rcv, pos);
      SubSub(At(isn, pos), At(isn, pos), At(isn, rcv));
    }
  }

  /** A recent segment of the peer is timely, and its true offset is the one the receiver computes. */
  lemma GenuineIsTimely(c: Conn, v: View, s: View, seg: Segment, pos: nat, ackPos: nat)
    requires RecvValid(c, v) && Prefixed(v, s) && Genuine(seg, pos, ackPos, s) && Recent(pos, ackPos, v)
    ensures Timely(c.rcv, c.opt, seg)
    ensures StartOffset(c.rcv.nxt, seg.seqno) == pos - v.rcv
  {
    hide LogicalWindow, BufferValid, OptValid, At, StartOffset;
    OffsetOfPosition(v.peerIsn, v.rcv, pos);
    AdvertisedWindowMeaning(c.rcv, c.opt) by { LimitIsCapacity(c.opt); }
  }

  lemma LimitIsCapacity(opt: Negotiated)
    ensures Limit(opt) <= RECEIVE_CAPACITY
  {
  }

  /** A window probe lies below everything the peer still wants: its byte is never looked at. */
  lemma ProbeIsIgnored(c: Conn, v: View, s: View, seg: Segment, pos: nat, ackPos: nat)
    requires RecvValid(c, v) && Prefixed(v, s) && Genuine(seg, pos, ackPos, s) && Recent(pos, ackPos, v)
    requires pos + |seg.payload| <= s.una
    ensures !AnyPayloadInWindow(c, seg)
  {
    hide LogicalWindow, BufferValid, OptValid, At, StartOffset, WindowTest;
    GenuineIsTimely(c, v, s, seg, pos, ackPos);
    AdvertisedWindowMeaning(c.rcv, c.opt);
    LimitIsCapacity(c.opt);
    WindowTestExactness(c.rcv.nxt, LogicalWindow(c.rcv, c.opt), seg.seqno, |seg.payload|);
  }

  // ---------------------------------------------------------------- payload

  lemma AbsorbFaithful(c: Conn, v: View, s: View, seg: Segment, pos: nat, ackPos: nat, o: nat)
    requires RecvValid(c, v) && Prefixed(v, s) && Faithful(c.rcv, v.rcv, s)
    requires Genuine(seg, pos, ackPos, s) && Timely(c.rcv, c.opt, seg)
             && StartOffset(c.rcv.nxt, seg.seqno) == pos - v.rcv
    ensures FaithfulAt(Held(Absorb(c, seg), o), v.rcv + o, s)
  {
    hide Absorb, Held, BufferValid, OptValid, Timely, StartOffset, At;
    assert FaithfulAt(Held(c.rcv, o), v.rcv + o, s);
    if Held(Absorb(c, seg), o).Some? {
      AbsorbedBytes(c, seg, o);
    }
  }

  lemma ReleasedBytes(c: Conn, seg: Segment, o: nat)
    requires OptValid(c.opt) && BufferValid(c.rcv, c.opt) && Timely(c.rcv, c.opt, seg)
    ensures var (bytes, r) := Released(c, seg);
            && (o < |bytes| ==> Held(Absorb(c, seg), o) == Some(bytes[o]))
            && Held(r, o) == Held(Absorb(c, seg), o + |bytes|)
  {
    hide Absorb, Release, Canonical, OptValid, Timely, At, Held;
    AbsorbKeepsValid(c, seg);
    ReleaseMeaning(Absorb(c, seg), Limit(c.opt), o) by { LimitIsCapacity(c.opt); }
  }

  /** What is released continues the delivered prefix; what stays is still the peer's bytes. */
  lemma ReleaseFollows(c: Conn, v: View, s: View, seg: Segment, pos: nat, ackPos: nat)
    requires RecvValid(c, v) && Prefixed(v, s) && Faithful(c.rcv, v.rcv, s)
    requires Genuine(seg, pos, ackPos, s) && Timely(c.rcv, c.opt, seg)
             && StartOffset(c.rcv.nxt, seg.seqno) == pos - v.rcv
    ensures var (bytes, r) := Released(c, seg);
            && Faithful(r, v.rcv + |bytes|, s)
            && v.delivered + bytes <= s.ledger.stream && v.rcv + |bytes| <= s.nxt
            && (v.peerFin ==> bytes == [])
  {
    hide Absorb, Held, BufferValid, OptValid, Timely, StartOffset, At, Released, Genuine;
    var (bytes, r) := Released(c, seg);
    forall o: nat
      ensures FaithfulAt(Held(r, o), v.rcv + |bytes| + o, s)
    {
      AbsorbFaithful(c, v, s, seg, pos, ackPos, o + |bytes|);
      ReleasedBytes(c, seg, o);
    }
    forall o: nat | o < |bytes|
      ensures v.rcv + o < s.nxt && v.rcv - 1 + o < |s.ledger.stream| && bytes[o] == s.ledger.stream[v.rcv - 1 + o]
    {
      AbsorbFaithful(c, v, s, seg, pos, ackPos, o);
      ReleasedBytes(c, seg, o);
    }
    PrefixExtends(v.delivered, bytes, s.ledger.stream, v.rcv - 1);
    if bytes != [] {
      assert bytes[|bytes| - 1] == s.ledger.stream[v.rcv - 1 + |bytes| - 1];
    }
  }

  lemma PrefixExtends(delivered: seq<u8>, bytes: seq<u8>, stream: seq<u8>, at: nat)
    requires delivered <= stream && (at == |delivered| || (at == |delivered| + 1 && delivered == stream))
    requires forall o: nat | o < |bytes| :: at + o < |stream| && bytes[o] == stream[at + o]
    ensures delivered + bytes <= stream
    ensures at == |delivered| + 1 ==> bytes == []
  {
    if bytes != [] {
      var last := bytes[|bytes| - 1];
      assert last == stream[at + |bytes| - 1];
    }
  }

  // ---------------------------------------------------------------- the FIN

  lemma SamePosition(isn: u32, a: nat, b: nat)
    requires At(isn, a) == At(isn, b) && a <= b + REACH && b <= a + REACH
    ensures a == b
  {
    if a <= b {
      SubOfPositions(isn, b, a);
    } else {
      SubOfPositions(isn, a, b);
    }
  }

  lemma FinKeepsFaith(c: Conn, s: View, seg: Segment, pos: nat, ackPos: nat)
    requires Genuine(seg, pos, ackPos, s) && FinFaithful(c.rcv.pendingFin, s)
    ensures FinFaithful(Absorb(c, seg).pendingFin, s)
  {
    hide Absorb;
    PendingFinCases(c, seg);
    AtZero(seg.seqno);
  }

  /** Receiving a recent segment of the peer keeps `Follows`. */
  lemma ReceiveFollows(c: Conn, v: View, s: View, seg: Segment, now: int, pos: nat, ackPos: nat)
    requires CoreValid(c, v) && StepState(c, v) && Follows(c.rcv, v, s)
    requires Genuine(seg, pos, ackPos, s) && Timely(c.rcv, c.opt, seg)
             && StartOffset(c.rcv.nxt, seg.seqno) == pos - v.rcv
    ensures var got := Receive(c, seg, now); Follows(got.conn.rcv, ReceiveView(c, v, seg, now), s)
  {
    hide SendValid, BufferValid, OptValid, Timely, RttEstimator.Valid, Bounded, Released, Receive, Absorb, At, StateOf,
         StartOffset, Held, Genuine, FaithfulAt;
    var (bytes, r) := Released(c, seg);
    ReleaseFollows(c, v, s, seg, pos, ackPos);
    FinKeepsFaith(c, s, seg, pos, ackPos);
    ReceiveCases(c, seg, now);
    ReleasedKeepsValid(c, seg);
    if Receive(c, seg, now).peerClosed {
      FinNotYetConsumed(c, v, seg) by { PendingFinCases(c, seg); }
      AtAt(v.peerIsn, v.rcv, |bytes|);
      SamePosition(v.peerIsn, v.rcv + |bytes|, 1 + |s.ledger.stream|);
      assert v.delivered + bytes == s.ledger.stream;
      StepOverFinFaithful(r, c.opt, v.rcv + |bytes|, s);
      ConsumedRecv(c.(rcv := r), now);
    }
  }

  lemma ConsumedRecv(c: Conn, now: int)
    ensures ConsumeFin(c, now).rcv == c.rcv.(nxt := At(c.rcv.nxt, 1), pendingFin := None)
  {
  }

  lemma StepOverFinFaithful(r: RecvState, opt: Negotiated, rcv: nat, s: View)
    requires BufferValid(r, opt) && Faithful(r, rcv, s)
    requires r.fragments != [] ==> Sub(r.fragments[0].start, r.nxt) > 0
    ensures Faithful(r.(nxt := At(r.nxt, 1), pendingFin := None), rcv + 1, s)
  {
    hide Canonical, At, FaithfulAt, ByteAt, ToRuns;
    forall o: nat
      ensures FaithfulAt(Held(r.(nxt := At(r.nxt, 1), pendingFin := None), o), rcv + 1 + o, s)
    {
      StepOverFin(r, Limit(opt), o) by { LimitIsCapacity(opt); }
      assert Held(r.(nxt := At(r.nxt, 1), pendingFin := None), o) == Held(r.(nxt := At(r.nxt, 1)), o);
      assert FaithfulAt(Held(r, o + 1), rcv + (o + 1), s);
    }
  }

  // ---------------------------------------------------------------- acknowledgments

  /** An acknowledgment of the peer moves `snd_una` exactly to the position it names. */
  lemma AckIsExact(c: Conn, v: View, seg: Segment, blocks: seq<SackBlock>, now: int, ackPos: nat)
    requires SendValid(c.snd, v) && seg.ackno == At(v.ledger.isn, ackPos)
    requires ackPos <= v.nxt && v.una <= ackPos + MAX_AGE
    ensures ProcessAckView(c, v, seg, blocks, now).una == Max(v.una, ackPos)
  {
    hide SendValid, ProcessAckView, AckView, AdvanceView, DuplicateView, ApplySack, RetireAcknowledged,
         UpdateSendWindow, SeqGreater, At;
    ViewOfResponse(c, v, seg, blocks, now);
    var v1 := AckView(c, v, seg.ackno, now);
    var c2 := ApplySack(RetireAcknowledged(c, seg.ackno, now).0, seg.ackno, blocks);
    var c3 := c2.(snd := UpdateSendWindow(c2.snd, c2.opt, seg));
    ResponseKeepsUna(c3, v1, seg, c3.snd.wnd != c2.snd.wnd);
    AckMoves(c, v, seg.ackno, now, ackPos);
  }

  lemma ResponseKeepsUna(c: Conn, v: View, seg: Segment, windowChanged: bool)
    ensures AdvanceView(c, v, seg.ackno).una == v.una && DuplicateView(c, v, seg, windowChanged).una == v.una
  {
    hide LowestResendable, PositionOf, ClearRecovered, IsDuplicateAck, SeqLessOrEqual, Pending.Length;
  }

  lemma AckMoves(c: Conn, v: View, ack: u32, now: int, ackPos: nat)
    requires SendValid(c.snd, v) && ack == At(v.ledger.isn, ackPos) && ackPos <= v.nxt && v.una <= ackPos + MAX_AGE
    ensures AckView(c, v, ack, now).una == Max(v.una, ackPos)
  {
    hide Tiles, At, HistoryBelow, QueueSplit, SampleEnd, Retire, SeqLessOrEqual;
    FlightBound(c.snd, v);
    ComparePositions(v.ledger.isn, ackPos, v.una);
    if v.una < ackPos {
      SubOfPositions(v.ledger.isn, ackPos, v.una);
    }
  }

  // ---------------------------------------------------------------- one arriving segment

  lemma FollowsSame(r: RecvState, v: View, v': View, s: View)
    requires Follows(r, v, s) && v'.peerKnown == v.peerKnown && v'.peerIsn == v.peerIsn && v'.rcv == v.rcv
    requires v'.delivered == v.delivered && v'.peerFin == v.peerFin
    ensures Follows(r, v', s)
  {
  }

  lemma AfterAckFollows(key: Key, c: Conn, v: View, s: View, seg: Segment, fast: Option<Segment>, now: int, pos: nat,
                        ackPos: nat)
    requires CoreValid(c, v) && StepState(c, v) && Follows(c.rcv, v, s)
    requires Genuine(seg, pos, ackPos, s) && Timely(c.rcv, c.opt, seg)
             && StartOffset(c.rcv.nxt, seg.seqno) == pos - v.rcv
    ensures Follows(AfterAck(key, c, seg, fast, now).0.rcv, AfterAckView(key, c, v, seg, now), s)
  {
    hide AfterAck, SendableView, Receive, ScheduleIfSendable, Timely, MakePureAck, StateOf, Absorbs, CoreValid,
         StepState, Follows, Genuine, StartOffset;
    AfterAckCases(key, c, seg, fast, now);
    var c0 := if Absorbs(c, seg) then Receive(c, seg, now).conn else c;
    var v0 := if Absorbs(c, seg) then ReceiveView(c, v, seg, now) else v;
    ReceiveKeepsValid(c, v, seg, now);
    ReceiveFollows(c, v, s, seg, now, pos, ackPos);
    ScheduleIfSendableKeepsValid(key, c0, v0, now);
    FollowsSame(c0.rcv, v0, AfterAckView(key, c, v, seg, now), s);
  }

  /** What a receiver acknowledges is at most what it has received. */
  predicate Acknowledges(v: View, v': View, s: View) { v'.una == v.una || (s.peerKnown && v'.una <= s.rcv) }

  lemma SynchronizedFollows(key: Key, c: Conn, v: View, s: View, seg: Segment, now: int, pos: nat, ackPos: nat)
    requires SyncValid(c, v) && c.state != TimeWait && Follows(c.rcv, v, s)
             && (s.peerKnown ==> s.peerIsn == v.ledger.isn && s.rcv <= v.nxt)
    requires Genuine(seg, pos, ackPos, s) && Recent(pos, ackPos, v)
    ensures var c', v' := HandleSynchronized(key, c, seg, now).0, SynchronizedView(key, c, v, seg, now);
            Follows(c'.rcv, v', s) && Acknowledges(v, v', s) && Timely(c.rcv, c.opt, seg)
  {
    hide ProcessAck, AfterAck, AfterAckView, ProcessAckView, ParseOptions, Timely, StepState, Follows, StartOffset,
         CoreValid, FastOk, SeqLessOrEqual;
    SyncIsCore(c, v);
    FollowsPrefix(c, v, s);
    GenuineIsTimely(c, v, s, seg, pos, ackPos);
    if AckAcceptable(c, seg) {
      var blocks := ParseOptions(seg.options).value.sackBlocks;
      var (c1, fast) := ProcessAck(key, c, seg, blocks, now);
      var v1 := ProcessAckView(c, v, seg, blocks, now);
      ProcessAckKeepsValid(key, c, v, seg, blocks, now);
      AckIsExact(c, v, seg, blocks, now, ackPos) by { CoreHasSend(c, v); }
      FollowsSame(c.rcv, v, v1, s);
      FastIsResend(fast, c.rcv.nxt, c.cc.inRecovery, v.ledger.episode, v1);
      AfterAckFollows(key, c1, v1, s, seg, fast, now, pos, ackPos);
      AfterAckKeepsValid(key, c1, v1, seg, fast, now);
    }
  }

  lemma FollowsPrefix(c: Conn, v: View, s: View)
    requires CoreValid(c, v) && Follows(c.rcv, v, s)
    ensures RecvValid(c, v) && Prefixed(v, s)
  {
  }

  lemma EmptyFaithful(r: RecvState, rcv: nat, s: View)
    requires r.fragments == []
    ensures Faithful(r, rcv, s)
  {
  }

  /** The SYN-ACK names the peer's initial number, and everything starts at position 1. */
  lemma SynSentFollows(key: Key, c: Conn, v: View, s: View, seg: Segment, now: int, pos: nat, ackPos: nat)
    requires SynSentValid(c, v) && Follows(c.rcv, v, s) && Genuine(seg, pos, ackPos, s) && s.nxt <= s.una + REACH
    ensures var c', v' := HandleSynSent(key, c, seg, now).0, SynSentView(c, v, seg, now);
            Follows(c'.rcv, v', s) && Acknowledges(v, v', s)
  {
    hide ParseOptions, RetireAcknowledged, Held, InitialCwnd, RttEstimator.Valid, SampledLedger, Negotiate, SamplesSyn,
         AdvertisedWindow;
    if CompletesConnect(c, seg) {
      var opt := Negotiate(ParseOptions(seg.options).value);
      var c1 := c.(remoteIsn := seg.seqno, remoteKnown := true, rcv := c.rcv.(nxt := At(seg.seqno, 1)),
                   opt := opt, cc := c.cc.(cwnd := InitialCwnd(opt.sendMss)), state := Established);
      RetireFrame(c1, seg.ackno, now);
      AtZero(s.ledger.isn);
      EmptyFaithful(c1.rcv, 1, s);
    }
  }

  /** A segment of the peer keeps `Follows` in every state, and acknowledges no more than the peer received. */
  lemma ArrivalFollows(key: Key, c: Conn, v: View, s: View, seg: Segment, now: int, pos: nat, ackPos: nat)
    requires ConnValid(c, v) && Follows(c.rcv, v, s) && (s.peerKnown ==> s.peerIsn == v.ledger.isn && s.rcv <= v.nxt)
    requires Genuine(seg, pos, ackPos, s) && Recent(pos, ackPos, v) && s.nxt <= s.una + REACH
    ensures var c', v' := Handle(key, c, seg, now).0, HandleView(key, c, v, seg, now);
            Follows(c'.rcv, v', s) && Acknowledges(v, v', s) && TimelyEvent(c, Deliver(seg))
  {
    hide SyncValid, HandleSynchronized, SynchronizedView, Timely, ParseOptions, RetireAcknowledged, Held, InitialCwnd,
         BuildSynAckOptions, AdvertisedWindow, RttEstimator.Valid, OptValid, SampledLedger;
    if c.state == TimeWait {
      FollowsPrefix(c, v, s) by { SyncIsCore(c, v); }
      GenuineIsTimely(c, v, s, seg, pos, ackPos);
    } else if c.state == SynReceived {
      EmptyFaithful(c.rcv.(nxt := At(c.remoteIsn, 1)), 1, s);
      RetireFrame(c.(state := Established, rcv := c.rcv.(nxt := At(c.remoteIsn, 1)),
                     snd := c.snd.(una := c.localIsn, nxt := At(c.localIsn, 1))), At(c.localIsn, 1), now);
    } else if c.state == SynSent {
      SynSentFollows(key, c, v, s, seg, now, pos, ackPos);
    } else {
      SynchronizedFollows(key, c, v, s, seg, now, pos, ackPos);
    }
  }
}
