/**
 The state diagram of section 3.3.2 of RFC 9293: every event follows one of its edges, or two of
 them, and the state between calls is the one the two FINs determine.
 */
module CloseStates {
  import opened Primitives
  import opened SequenceSpace
  import Reassembly
  import opened TcpOptions
  import opened TcpSegments
  import opened TcpTypes
  import opened Receiving
  import opened RttEstimator
  import opened CongestionControl
  import opened Sending
  import opened TcpEngine
  import opened PendingQueue
  import opened ReceiveInvariant
  import opened ConnInvariant
  import opened AckPhase
  import opened ReceivePhase
  import opened SendPhase
  import opened ConnSteps
  import opened CallSteps
  import opened ConnRuns

  predicate Edge(a: TcpState, b: TcpState) {
    match a
    case SynSent => b == Established
    case SynReceived => b == Established
    case Established => b == FinWait1 || b == CloseWait
    case FinWait1 => b == FinWait2 || b == Closing
    case FinWait2 => b == TimeWait
    case Closing => b == TimeWait
    case CloseWait => b == LastAck
    case _ => false
  }

  ghost predicate Path(a: TcpState, b: TcpState) { a == b || Edge(a, b) || exists m :: Edge(a, m) && Edge(m, b) }

  /** The order of the FINs is fixed when the local one is sequenced, and it is not acknowledged at once. */
  predicate FinStep(v: View, v': View) {
    && (v.finSent ==> v'.passive == v.passive)
    && (!v.finSent && v'.finSent ==> v'.passive == v'.peerFin && !v'.FinAcked())
  }

  lemma ScheduleFinStep(key: Key, c: Conn, v: View, now: int)
    requires CoreValid(c, v) && c.state == StateOf(v) && !v.finSent && !v.passive
    ensures FinStep(v, ScheduleView(key, c, v, now))
  {
    hide CoreValid, ScheduleData, SequencesFin, StateOf, Sends, ToSend;
    PassedKeepsValid(key, c, v, now);
  }

  lemma SendableFinStep(key: Key, c: Conn, v: View, now: int)
    requires CoreValid(c, v) && StepState(c, v)
    ensures FinStep(v, SendableView(key, c, v, now))
  {
    hide ScheduleView, SendValid, RecvValid, RecoveryValid, RttEstimator.Valid;
    if !c.removal && c.Sendable() {
      FinSentInState(v);
      ScheduleFinStep(key, c, v, now);
    }
  }

  lemma SynchronizedFinStep(key: Key, c: Conn, v: View, seg: Segment, now: int)
    requires SyncValid(c, v) && c.state != TimeWait && (!seg.flags.rst ==> Timely(c.rcv, c.opt, seg))
    ensures FinStep(v, SynchronizedView(key, c, v, seg, now))
  {
    hide SyncValid, CoreValid, StepState, ProcessAck, SendableView, ProcessAckView, FastOk, ParseOptions, Timely,
         Receive, SeqLessOrEqual;
    if AckAcceptable(c, seg) {
      var blocks := ParseOptions(seg.options).value.sackBlocks;
      ProcessAckKeepsValid(key, c, v, seg, blocks, now);
      var c1, v1 := ProcessAck(key, c, seg, blocks, now).0, ProcessAckView(c, v, seg, blocks, now);
      if Absorbs(c1, seg) {
        ReceiveKeepsValid(c1, v1, seg, now);
        SendableFinStep(key, Receive(c1, seg, now).conn, ReceiveView(c1, v1, seg, now), now);
      } else {
        SendableFinStep(key, c1, v1, now);
      }
    }
  }

  lemma StepFinStep(key: Key, c: Conn, v: View, e: Event, now: int)
    requires ConnValid(c, v) && TimelyEvent(c, e)
    ensures FinStep(v, StepView(key, c, v, e, now))
  {
    hide SyncValid, OpeningValid, SynchronizedView, ScheduleView, CloseView, Timely, CoreValid, OwnedBytes,
         ParseOptions, EnqueueView;
    match e {
      case Deliver(seg) =>
        if c.Synchronized() && c.state != TimeWait {
          SynchronizedFinStep(key, c, v, seg, now);
        }
      case Write(payload) =>
        if SendCheck(c, payload).None? {
          SendableIsOpen(c, v);
          EnqueueKeepsCore(c, v, payload);
          EnqueueFields(v, payload);
          ScheduleFinStep(key, Enqueue(c, payload), EnqueueView(v, payload), now);
        }
      case Close =>
        CloseFinStep(key, c, v, now);
      case PollRetransmissions =>
      case PollProbes =>
    }
  }

  lemma EnqueueFields(v: View, payload: seq<u8>)
    ensures var v' := EnqueueView(v, payload);
            v'.finSent == v.finSent && v'.passive == v.passive && v'.peerFin == v.peerFin
  {
  }

  lemma CloseFinStep(key: Key, c: Conn, v: View, now: int)
    requires ConnValid(c, v)
    ensures FinStep(v, CloseView(c, v))
  {
    hide SendValid, SequencesFin, StateOf, RecvValid, RecoveryValid, OpeningValid, NoStall;
    if c.Sendable() {
      SendableIsOpen(c, v);
      RequestKeepsCore(c, v);
      FinKeepsValid(key, Requested(c), v, now);
    }
  }

  /** Between calls the state is a function of the two FINs, the acknowledgment of the local one and their order. */
  lemma StateIsDetermined(c: Conn, v: View)
    requires ConnValid(c, v)
    ensures c.state == if v.una == 0 then if v.peerKnown then SynReceived else SynSent else StateOf(v)
  {
    hide SendValid, RecvValid, RecoveryValid, NoStall, RttEstimator.Valid;
    if c.Synchronized() {
      SendOrder(c.snd, v);
      StateIsSynchronized(v);
    }
  }

  /** From any FIN history to any later one, when at most one local FIN is sequenced. */
  lemma StatePath(v: View, v': View)
    requires v.finSent ==> v'.finSent && v'.ledger.stream == v.ledger.stream
    requires (v.peerFin ==> v'.peerFin) && v.una <= v'.una && FinStep(v, v')
    requires v.passive ==> v.peerFin && v.finSent
    requires (v'.finSent ==> v'.una <= 2 + |v'.ledger.stream|) && !(v'.FinAcked() && v'.peerFin && v'.passive)
    requires !(v.FinAcked() && v.peerFin && v.passive)
    ensures Path(StateOf(v), StateOf(v'))
  {
    var a, b := StateOf(v), StateOf(v');
    if a == Established && b == LastAck {
      assert Edge(a, CloseWait) && Edge(CloseWait, b);
    } else if a == FinWait1 && b == TimeWait {
      assert Edge(a, FinWait2) && Edge(FinWait2, b);
    }
  }

  /** Every event of a synchronized connection follows the state diagram, by at most two edges. */
  lemma StepFollowsDiagram(key: Key, c: Conn, v: View, e: Event, now: int)
    requires ConnValid(c, v) && TimelyEvent(c, e) && !Step(key, c, e, now).0.removal
    ensures Path(c.state, Step(key, c, e, now).0.state)
  {
    hide ConnValid, Step, StepView, StateOf, TimelyEvent, Edge;
    var c', v' := Step(key, c, e, now).0, StepView(key, c, v, e, now);
    StepKeepsValid(key, c, v, e, now);
    SteppedValid(c', Step(key, c, e, now).1, v, v');
    StepFinStep(key, c, v, e, now);
    StateIsDetermined(c, v);
    StateIsDetermined(c', v');
    if v.una == 0 {
      OpeningPath(key, c, v, e, now);
    } else {
      FinalBounds(c, v);
      FinalBounds(c', v');
      StatePath(v, v');
    }
  }

  lemma FinalBounds(c: Conn, v: View)
    requires ConnValid(c, v) && v.una > 0
    ensures (v.finSent ==> v.una <= 2 + |v.ledger.stream|) && !(v.FinAcked() && v.peerFin && v.passive)
    ensures v.passive ==> v.peerFin && v.finSent
  {
    hide RecvValid, RecoveryValid, NoStall, Tiles, StateOf, RttEstimator.Valid;
  }

  lemma SynSentNext(key: Key, c: Conn, seg: Segment, now: int)
    requires c.state == SynSent
    ensures var s := HandleSynSent(key, c, seg, now).0.state; s == SynSent || s == Established
  {
    hide ParseOptions, RetireAcknowledged, InitialCwnd, Negotiate, MakeSegment, At;
    if CompletesConnect(c, seg) {
      var opt := Negotiate(ParseOptions(seg.options).value);
      RetireFrame(c.(remoteIsn := seg.seqno, remoteKnown := true, rcv := c.rcv.(nxt := At(seg.seqno, 1)),
                     opt := opt, cc := c.cc.(cwnd := InitialCwnd(opt.sendMss)), state := Established), seg.ackno, now);
    }
  }

  lemma SynReceivedNext(key: Key, c: Conn, seg: Segment, now: int)
    requires c.state == SynReceived
    ensures var s := HandleSynReceived(key, c, seg, now).0.state; s == SynReceived || s == Established
  {
    hide RetireAcknowledged, MakeSynAck, DecodePeerWindow, At;
    RetireFrame(c.(state := Established, rcv := c.rcv.(nxt := At(c.remoteIsn, 1)),
                   snd := c.snd.(una := c.localIsn, nxt := At(c.localIsn, 1))), At(c.localIsn, 1), now);
  }

  /** Before establishment the calls and polls leave the state alone. */
  lemma OpeningCallsKeepState(key: Key, c: Conn, e: Event, now: int)
    requires !c.Synchronized() && !e.Deliver?
    ensures Step(key, c, e, now).0.state == c.state
  {
    hide TimeoutSegment, BackOff, Collapse, ClearScoreboard, OwnedBytes, MakeSegment, PersistEligible;
  }

  /** An opening connection either stays or becomes established. */
  lemma OpeningPath(key: Key, c: Conn, v: View, e: Event, now: int)
    requires ConnValid(c, v) && v.una == 0
    ensures Path(c.state, Step(key, c, e, now).0.state)
  {
    hide ConnValid, HandleSynSent, HandleSynReceived, MakeOutgoingData, BeginClose, PollRetransmission, PollPersist,
         Sent;
    SynchronizedAcked(c, v);
    if !e.Deliver? {
      OpeningCallsKeepState(key, c, e, now);
    } else if c.state == SynSent {
      SynSentNext(key, c, e.segment, now);
    } else {
      SynReceivedNext(key, c, e.segment, now);
    }
    assert Edge(SynSent, Established) && Edge(SynReceived, Established);
  }

  lemma SynchronizedAcked(c: Conn, v: View)
    requires ConnValid(c, v) && v.una == 0
    ensures !c.Synchronized()
  {
    hide RecvValid, RecoveryValid, NoStall, Tiles, StateOf, RttEstimator.Valid;
  }

  // ---------------------------------------------------------------- after the peer's FIN

  /** What follows acknowledgment processing hands bytes over by the receive side alone. */
  lemma AfterEndHandsOver(key: Key, c: Conn, seg: Segment, fast: Option<Segment>, now: int)
    requires OptValid(c.opt) && BufferValid(c.rcv, c.opt) && Timely(c.rcv, c.opt, seg) && !FinOpen(c.state)
    ensures AfterAck(key, c, seg, fast, now).1.accepted != [] <==>
            && AnyPayloadInWindow(c, seg)
            && (|| Held(c.rcv, 0).Some?
                || (StartOffset(c.rcv.nxt, seg.seqno) <= 0 && |c.rcv.fragments| < Reassembly.MAX_FRAGMENTS))
  {
    hide AfterAck, Receive, ScheduleIfSendable, MakePureAck, BufferValid, OptValid, Timely, WindowTest, LogicalWindow,
         Held, StartOffset;
    AfterAckCases(key, c, seg, fast, now);
    if AnyPayloadInWindow(c, seg) {
      EmptyOverlapsNothing(c, seg);
      HandsOverExactly(c, seg, now);
    }
  }

  lemma EmptyOverlapsNothing(c: Conn, seg: Segment)
    requires OptValid(c.opt) && BufferValid(c.rcv, c.opt) && Timely(c.rcv, c.opt, seg) && AnyPayloadInWindow(c, seg)
    ensures seg.payload != []
  {
    hide LogicalWindow, WindowTest, BufferValid, OptValid;
    AdvertisedWindowMeaning(c.rcv, c.opt);
    WindowTestExactness(c.rcv.nxt, LogicalWindow(c.rcv, c.opt), seg.seqno, |seg.payload|);
  }

  /**
   The states after the peer's FIN still accept payload.  Exactly these segments make bytes
   reach the application after its end of stream: an acceptable ACK with payload in the window
   that brings the byte at `rcv_nxt` while a fragment slot is free, or finds it buffered.
   */
  lemma DeliveredAfterEnd(key: Key, c: Conn, v: View, seg: Segment, now: int)
    requires SyncValid(c, v) && v.peerFin && c.state != TimeWait && (!seg.flags.rst ==> Timely(c.rcv, c.opt, seg))
    ensures Handle(key, c, seg, now).1.accepted != [] <==>
            && AckAcceptable(c, seg) && AnyPayloadInWindow(c, seg)
            && (|| Held(c.rcv, 0).Some?
                || (StartOffset(c.rcv.nxt, seg.seqno) <= 0 && |c.rcv.fragments| < Reassembly.MAX_FRAGMENTS))
  {
    hide SyncValid, StepState, ProcessAck, AfterAck, ProcessAckView, FastOk, ParseOptions, MakePureAck, Timely,
         WindowTest, LogicalWindow, Held, StartOffset, SeqLessOrEqual, SendValid, RecoveryValid, BufferValid, OptValid,
         RttEstimator.Valid, OnlyAck, EpisodeKept;
    AfterEndState(c, v);
    if AckAcceptable(c, seg) {
      var blocks := ParseOptions(seg.options).value.sackBlocks;
      var (c1, fast) := ProcessAck(key, c, seg, blocks, now);
      ProcessAckKeepsValid(key, c, v, seg, blocks, now);
      assert !FinOpen(c1.state) by { StillClosed(c1, ProcessAckView(c, v, seg, blocks, now), v); }
      AfterEndHandsOver(key, c1, seg, fast, now);
    }
  }

  lemma AfterEndState(c: Conn, v: View)
    requires SyncValid(c, v)
    ensures c.state != SynSent && c.state != SynReceived && CoreValid(c, v)
  {
  }

  lemma StillClosed(c: Conn, v: View, v0: View)
    requires StepState(c, v) && OnlyAck(v0, v) && v0.peerFin
    ensures !FinOpen(c.state)
  {
  }

  /** A connection that has signalled the end of the stream hands over the next byte all the same. */
  lemma BytesAfterEnd(key: Key, c: Conn, v: View, seg: Segment, now: int)
    requires SyncValid(c, v) && v.peerFin && c.state != TimeWait && c.rcv.fragments == []
    requires AckAcceptable(c, seg) && seg.seqno == c.rcv.nxt && 1 <= |seg.payload| <= 65535
    ensures Timely(c.rcv, c.opt, seg) && Handle(key, c, seg, now).1.accepted != []
  {
    hide SendValid, RecoveryValid, NoStall, RttEstimator.Valid, Handle, ParseOptions, SeqLessOrEqual, StateOf,
         LogicalWindow, WindowTest;
    AdvertisedWindowMeaning(c.rcv, c.opt);
    WindowTestExactness(c.rcv.nxt, LogicalWindow(c.rcv, c.opt), seg.seqno, |seg.payload|);
    DeliveredAfterEnd(key, c, v, seg, now);
  }
}
