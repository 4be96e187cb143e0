/**
 Every step of one connection keeps its invariant, against any peer.

 An event is one call into the connection table for this connection.  `ConnValid` covers the two
 handshake states as well as the synchronized ones, and `Genuine` says what every segment a
 connection ever transmits is.
 */
module ConnSteps {
  import opened Primitives
  import opened SequenceSpace
  import Reassembly
  import opened TcpOptions
  import opened TcpSegments
  import opened TcpTypes
  import opened Receiving
  import opened RttEstimator
  import opened CongestionControl
  import opened Sending
  import opened TcpEngine
  import opened PendingQueue
  import opened ReceiveInvariant
  import opened ConnInvariant
  import opened AckPhase
  import opened ReceivePhase
  import opened SendPhase

  // ---------------------------------------------------------------- handshake states

  /** The single entry of a connection that is being opened. */
  predicate SynEntry(e: Pending, isn: u32, active: bool, l: Ledger) {
    && e.start == isn && e.isSyn && e.isActiveSyn == active && !e.isFin && e.payload == []
    && e.flags == (if active then SYN else SYN_ACK)
    && Ranged(e.interval) && e.timeouts <= MAX_RETRANSMITS && !e.sampled && (1 in l.resent ==> e.resent)
  }

  predicate OpeningValid(c: Conn, v: View, active: bool) {
    && c.localIsn == v.ledger.isn && v.ledger.stream == [] && v.ledger.sampledEnd == 0 && v.ledger.episode == {}
    && v.ledger.resent <= {1} && v.una == 0 && v.nxt == 1 && !v.finSent
    && v.delivered == [] && !v.peerFin && !v.passive
    && |c.snd.pending| == 1 && SynEntry(c.snd.pending[0], c.localIsn, active, v.ledger)
    && c.snd.unsent == [] && c.snd.finSeq.None? && !c.snd.closeRequested
    && c.rcv == RecvState(0, [], None)
    && RttEstimator.Valid(c.rtt) && c.persist == PersistState(None, INITIAL_PERSIST_INTERVAL)
    && c.cc == Congestion(c.cc.cwnd, INITIAL_SSTHRESH, 0, false, 0, 0)
    && c.timeWait.None? && !c.removal
  }

  predicate SynSentValid(c: Conn, v: View) {
    && c.state == SynSent && OpeningValid(c, v, true)
    && c.snd.una == c.localIsn && c.snd.nxt == At(c.localIsn, 1)
    && !v.peerKnown && v.rcv == 0
  }

  predicate SynReceivedValid(c: Conn, v: View) {
    && c.state == SynReceived && OpeningValid(c, v, false)
    && c.remoteKnown && v.peerKnown && v.peerIsn == c.remoteIsn && v.rcv == 1
    && OptValid(c.opt) && c.cc.cwnd == InitialCwnd(c.opt.sendMss)
  }

  /** The invariant of a connection between calls. */
  predicate ConnValid(c: Conn, v: View) {
    match c.state
    case SynSent => SynSentValid(c, v)
    case SynReceived => SynReceivedValid(c, v)
    case _ => SyncValid(c, v)
  }

  /** Everything in flight lies well within half the sequence space. */
  lemma FlightIsNear(c: Conn, v: View)
    requires ConnValid(c, v)
    ensures v.nxt <= v.una + REACH
  {
    hide SendValid, RecvValid, RecoveryValid, NoStall, RttEstimator.Valid, OptValid, SynEntry;
    if c.Synchronized() {
      FlightBound(c.snd, v);
    }
  }

  // ---------------------------------------------------------------- what is transmitted

  /** The segment stands at `pos` and acknowledges up to `ackPos`; a lone byte below `una` is a window probe. */
  predicate Genuine(seg: Segment, pos: nat, ackPos: nat, v: View) {
    && seg.seqno == At(v.ledger.isn, pos) && !seg.flags.rst
    && pos + |seg.payload| + (if seg.flags.syn then 1 else 0) + (if seg.flags.fin then 1 else 0) <= v.nxt
    && (seg.flags.ack ==> v.peerKnown && seg.ackno == At(v.peerIsn, ackPos) && 1 <= ackPos <= v.rcv)
    && (if seg.flags.syn then pos == 0 && seg.payload == [] && !seg.flags.fin else seg.flags.ack)
    && (seg.flags.fin ==> v.finSent && seg.payload == [] && pos == 1 + |v.ledger.stream|)
    && (seg.payload != [] ==>
          Carries(seg.payload, pos, v.ledger.stream) || (|seg.payload| == 1 && pos + 1 <= v.una))
  }

  ghost predicate IsGenuine(seg: Segment, v: View) {
    exists pos: nat, ackPos: nat :: Genuine(seg, pos, ackPos, v)
  }

  ghost predicate AllGenuine(segs: seq<Segment>, v: View) { forall s | s in segs :: IsGenuine(s, v) }

  /** Histories only grow: also the ends that gave a sample, and the ends that were resent. */
  predicate Extends(v: View, v': View) {
    && v'.ledger.isn == v.ledger.isn && v.ledger.stream <= v'.ledger.stream && Remembers(v.ledger, v'.ledger)
    && v.una <= v'.una && v.nxt <= v'.nxt && v.rcv <= v'.rcv
    && (v.peerKnown ==> v'.peerKnown && v'.peerIsn == v.peerIsn)
    && v.delivered <= v'.delivered && (v.peerFin ==> v'.peerFin)
    && (v.finSent ==> v'.finSent && v'.ledger.stream == v.ledger.stream)
  }

  /** Nothing happened to the receive side or to what is acknowledged. */
  predicate Quiet(c: Conn, c': Conn, v: View, v': View) {
    && c'.rcv == c.rcv && v'.una == v.una && v'.rcv == v.rcv && v'.peerKnown == v.peerKnown && v'.peerIsn == v.peerIsn
    && v'.delivered == v.delivered && v'.peerFin == v.peerFin
  }

  lemma GenuineStays(seg: Segment, pos: nat, ackPos: nat, v: View, v': View)
    requires Genuine(seg, pos, ackPos, v) && Extends(v, v')
    ensures Genuine(seg, pos, ackPos, v')
  {
    if Carries(seg.payload, pos, v.ledger.stream) {
      CarriesStays(seg.payload, pos, v.ledger.stream, v'.ledger.stream);
    }
  }

  lemma CarriesStays(payload: seq<u8>, pos: nat, stream: seq<u8>, stream': seq<u8>)
    requires Carries(payload, pos, stream) && stream <= stream'
    ensures Carries(payload, pos, stream')
  {
    assert stream' == stream + stream'[|stream|..];
  }

  lemma IsGenuineStays(seg: Segment, v: View, v': View)
    requires IsGenuine(seg, v) && Extends(v, v')
    ensures IsGenuine(seg, v')
  {
    var pos: nat, ackPos: nat :| Genuine(seg, pos, ackPos, v);
    GenuineStays(seg, pos, ackPos, v, v');
  }

  lemma PureAckIsGenuine(key: Key, c: Conn, v: View, mostRecent: Option<u32>)
    requires CoreValid(c, v)
    ensures IsGenuine(MakePureAck(key, c, mostRecent), v)
  {
    hide AdvertisedWindow, GenerateSackBlocks, BuildSackOptions, SendValid, BufferValid, OptValid, Bounded,
         RttEstimator.Valid;
    SendOrder(c.snd, v);
    var seg := MakePureAck(key, c, mostRecent);
    assert Genuine(seg, v.nxt, v.rcv, v);
  }

  lemma ResendIsGenuine(seg: Segment, v: View, v': View, p: nat)
    requires ResendOf(seg, At(v.peerIsn, v.rcv), v', p) && v'.peerKnown && v'.peerIsn == v.peerIsn
             && 1 <= v.rcv <= v'.rcv
    ensures IsGenuine(seg, v')
  {
    assert Genuine(seg, p, v.rcv, v');
  }

  /** Everything a scheduling pass sends is genuine. */
  lemma {:induction false} SendsAreGenuine(segs: seq<Segment>, pos: nat, v: View)
    requires Sends(segs, pos, v, At(v.peerIsn, v.rcv)) && v.peerKnown && 1 <= v.rcv
    ensures AllGenuine(segs, v) && pos <= v.nxt
    decreases |segs|
  {
    if segs != [] {
      var s := segs[0];
      if s.flags.fin {
        assert Genuine(s, pos, v.rcv, v);
        assert segs == [s];
      } else {
        SendsAreGenuine(segs[1..], pos + |s.payload|, v);
        assert Genuine(s, pos, v.rcv, v);
        assert forall x | x in segs :: x == s || x in segs[1..];
      }
    }
  }

  // ---------------------------------------------------------------- after the acknowledgment

  function SendableView(key: Key, c: Conn, v: View, now: int): View {
    if !c.removal && c.Sendable() then ScheduleView(key, c, v, now) else v
  }

  lemma ScheduleIfSendableKeepsValid(key: Key, c: Conn, v: View, now: int)
    requires CoreValid(c, v) && StepState(c, v)
    ensures var (c', segs) := ScheduleIfSendable(key, c, now);
            var v' := SendableView(key, c, v, now);
            && CoreValid(c', v') && (!c'.removal ==> SyncValid(c', v')) && c'.removal == c.removal && c'.rcv == c.rcv
            && v' == v.(nxt := v'.nxt, finSent := v'.finSent, passive := v'.passive) && v.nxt <= v'.nxt
            && (v.finSent ==> v'.finSent)
            && AllGenuine(segs, v')
  {
    hide SendValid, ScheduleView, Schedule, UpdatePersist, PersistEligible, OptValid, BufferValid, Bounded,
         RttEstimator.Valid, At;
    if !c.removal && c.Sendable() {
      FinSentInState(v);
      ScheduleKeepsValid(key, c, v, now);
      SendsAreGenuine(Schedule(key, c, now).1, v.nxt, SendableView(key, c, v, now));
    } else {
      PersistKeepsRange(c, now);
      if !c.removal {
        FinSentInState(v);
        QueueEmptyAfterFin(c.snd, v);
      }
    }
  }

  lemma FinSentInState(v: View)
    ensures v.finSent <==> StateOf(v) != Established && StateOf(v) != CloseWait
  {
  }

  lemma QueueEmptyAfterFin(s: SendState, v: View)
    requires SendValid(s, v) && v.finSent
    ensures s.unsent == []
  {
  }

  predicate Absorbs(c: Conn, seg: Segment) {
    (seg.payload != [] || seg.flags.fin) && (AnyPayloadInWindow(c, seg) || FinAccepted(c, seg))
  }

  function AfterAckView(key: Key, c: Conn, v: View, seg: Segment, now: int): View {
    if Absorbs(c, seg) then SendableView(key, Receive(c, seg, now).conn, ReceiveView(c, v, seg, now), now)
    else SendableView(key, c, v, now)
  }

  /** The cases of `AfterAck` by name. */
  lemma AfterAckCases(key: Key, c: Conn, seg: Segment, fast: Option<Segment>, now: int)
    ensures var got := Receive(c, seg, now);
            var c0 := if Absorbs(c, seg) then got.conn else c;
            var (c1, scheduled) := ScheduleIfSendable(key, c0, now);
            var (c', r) := AfterAck(key, c, seg, fast, now);
            && c' == c1 && r.scheduled == scheduled && r.fastRetransmit == fast
            && r.accepted == (if Absorbs(c, seg) then got.accepted else [])
            && r.peerClosed == (Absorbs(c, seg) && got.peerClosed)
            && (r.reply.Some? ==> exists m :: r.reply == Some(MakePureAck(key, c1, m)))
  {
    hide Receive, ScheduleIfSendable, MakePureAck, AnyPayloadInWindow, FinAccepted;
  }

  lemma AfterAckKeepsValid(key: Key, c: Conn, v: View, seg: Segment, fast: Option<Segment>, now: int)
    requires CoreValid(c, v) && StepState(c, v) && Timely(c.rcv, c.opt, seg)
    requires fast.Some? ==> exists p: nat :: ResendOf(fast.value, c.rcv.nxt, v, p)
    ensures var (c', r) := AfterAck(key, c, seg, fast, now);
            var v' := AfterAckView(key, c, v, seg, now);
            && CoreValid(c', v') && (!c'.removal ==> SyncValid(c', v'))
            && Extends(v, v') && v'.ledger == v.ledger && v'.una == v.una && v'.point == v.point
            && v'.nxt <= v'.una + REACH
            && v'.delivered == v.delivered + r.accepted && v'.peerFin == (v.peerFin || r.peerClosed)
            && (r.peerClosed ==> !v.peerFin)
            && AllGenuine(Sent(r), v')
  {
    hide SendValid, AfterAck, SendableView, Receive, ScheduleIfSendable, OptValid, BufferValid, Bounded,
         RttEstimator.Valid, At, Timely, MakePureAck, StateOf, ResendOf, Absorbs, IsGenuine, PersistEligible;
    AfterAckCases(key, c, seg, fast, now);
    ReceiveKeepsValid(c, v, seg, now);
    var c0 := if Absorbs(c, seg) then Receive(c, seg, now).conn else c;
    var v0 := if Absorbs(c, seg) then ReceiveView(c, v, seg, now) else v;
    ScheduleIfSendableKeepsValid(key, c0, v0, now);
    var (c', r) := AfterAck(key, c, seg, fast, now);
    var v' := AfterAckView(key, c, v, seg, now);
    FlightBound(c'.snd, v');
    if r.reply.Some? {
      var m :| r.reply == Some(MakePureAck(key, c', m));
      PureAckIsGenuine(key, c', v', m);
    }
    if fast.Some? {
      var p: nat :| ResendOf(fast.value, c.rcv.nxt, v, p);
      ResendLater(fast.value, c.rcv.nxt, v, v', p);
      ResendIsGenuine(fast.value, v, v', p);
    }
    SentAreGenuine(r, v');
  }

  /** The progress of `ReceiveProgress` reaches the application. */
  lemma ArrivalProgress(key: Key, c: Conn, seg: Segment, fast: Option<Segment>, now: int)
    requires OptValid(c.opt) && BufferValid(c.rcv, c.opt) && Timely(c.rcv, c.opt, seg)
    requires |c.rcv.fragments| < Reassembly.MAX_FRAGMENTS && BufferedBytes(c.rcv) + 4 <= Reassembly.RECEIVE_CAPACITY
    requires StartOffset(c.rcv.nxt, seg.seqno) <= 0 < StartOffset(c.rcv.nxt, seg.seqno) + |seg.payload|
    ensures AfterAck(key, c, seg, fast, now).1.accepted != []
  {
    hide AfterAck, Receive, ScheduleIfSendable, MakePureAck, AnyPayloadInWindow, FinAccepted, BufferValid, OptValid,
         Timely;
    ReceiveProgress(c, seg, now);
    AfterAckCases(key, c, seg, fast, now);
  }

  lemma ResendLater(seg: Segment, ackno: u32, v: View, v': View, p: nat)
    requires ResendOf(seg, ackno, v, p)
    requires v'.una == v.una && v.nxt <= v'.nxt && v'.ledger == v.ledger
    ensures ResendOf(seg, ackno, v', p)
  {
  }

  lemma SentAreGenuine(r: ReceiveResult, v: View)
    requires AllGenuine(r.scheduled, v)
    requires r.reply.Some? ==> IsGenuine(r.reply.value, v)
    requires r.fastRetransmit.Some? ==> IsGenuine(r.fastRetransmit.value, v)
    ensures AllGenuine(Sent(r), v)
  {
  }

  // ---------------------------------------------------------------- synchronized states

  function SynchronizedView(key: Key, c: Conn, v: View, seg: Segment, now: int): View {
    if AckAcceptable(c, seg) then
      var blocks := ParseOptions(seg.options).value.sackBlocks;
      AfterAckView(key, ProcessAck(key, c, seg, blocks, now).0, ProcessAckView(c, v, seg, blocks, now), seg, now)
    else v
  }

  /** What a segment did to the history, and what it made the connection send. */
  ghost predicate Handled(c': Conn, r: ReceiveResult, v: View, v': View) {
    && (!c'.removal ==> ConnValid(c', v'))
    && Extends(v, v') && v'.ledger.stream == v.ledger.stream && v'.nxt <= v'.una + REACH
    && v'.delivered == v.delivered + r.accepted && v'.peerFin == (v.peerFin || r.peerClosed)
    && (r.peerClosed ==> !v.peerFin)
    && AllGenuine(Sent(r), v')
  }

  lemma NothingHandled(c: Conn, v: View)
    requires ConnValid(c, v)
    ensures Handled(c, NOTHING, v, v) && Handled(c.(removal := true), NOTHING.(reset := true), v, v)
    ensures Handled(c.(removal := true), NOTHING, v, v)
  {
    hide ConnValid;
    FlightIsNear(c, v);
    assert Sent(NOTHING) == [] && Sent(NOTHING.(reset := true)) == [];
  }

  lemma HandleSynchronizedKeepsValid(key: Key, c: Conn, v: View, seg: Segment, now: int)
    requires SyncValid(c, v) && c.state != TimeWait && (!seg.flags.rst ==> Timely(c.rcv, c.opt, seg))
    ensures var (c', r) := HandleSynchronized(key, c, seg, now);
            Handled(c', r, v, SynchronizedView(key, c, v, seg, now))
  {
    hide SyncValid, ConnValid, CoreValid, StepState, ProcessAck, AfterAck, AfterAckView, ProcessAckView, FastOk,
         ParseOptions, MakePureAck, Timely, Sent, IsGenuine, SeqLessOrEqual;
    if AckAcceptable(c, seg) {
      var blocks := ParseOptions(seg.options).value.sackBlocks;
      var (c1, fast) := ProcessAck(key, c, seg, blocks, now);
      var v1 := ProcessAckView(c, v, seg, blocks, now);
      ProcessAckKeepsValid(key, c, v, seg, blocks, now);
      ProcessAckRemembers(c, v, seg, blocks, now) by { SyncIsCore(c, v); CoreHasSend(c, v); }
      FastIsResend(fast, c.rcv.nxt, c.cc.inRecovery, v.ledger.episode, v1);
      AfterAckKeepsValid(key, c1, v1, seg, fast, now);
      SyncIsValid(AfterAck(key, c1, seg, fast, now).0, AfterAckView(key, c1, v1, seg, now));
    } else {
      SyncIsValid(c, v);
      NothingHandled(c, v);
      if seg.flags.syn && IsDuplicateSynAck(c, seg) {
        SyncIsCore(c, v);
        PureAckIsGenuine(key, c, v, None);
        ReplyHandled(c, v, MakePureAck(key, c, None));
      }
    }
  }

  lemma CoreHasSend(c: Conn, v: View)
    requires CoreValid(c, v)
    ensures SendValid(c.snd, v)
  {
  }

  lemma FastIsResend(fast: Option<Segment>, ackno: u32, continuing: bool, before: set<nat>, v: View)
    requires FastOk(fast, ackno, continuing, before, v)
    ensures fast.Some? ==> exists p: nat :: ResendOf(fast.value, ackno, v, p)
  {
    hide ResendOf;
  }

  lemma SyncIsValid(c: Conn, v: View)
    ensures SyncValid(c, v) ==> ConnValid(c, v)
  {
  }

  lemma SyncIsCore(c: Conn, v: View)
    requires SyncValid(c, v)
    ensures CoreValid(c, v)
  {
  }

  lemma ReplyHandled(c: Conn, v: View, reply: Segment)
    requires ConnValid(c, v) && IsGenuine(reply, v)
    ensures Handled(c, Replying(reply), v, v)
  {
    hide ConnValid, IsGenuine;
    FlightIsNear(c, v);
    assert Sent(Replying(reply)) == [reply];
  }

  // ---------------------------------------------------------------- TIME-WAIT

  lemma HandleTimeWaitKeepsValid(key: Key, c: Conn, v: View, seg: Segment, now: int)
    requires SyncValid(c, v) && c.state == TimeWait
    ensures var (c', r) := HandleTimeWait(key, c, seg, now); Handled(c', r, v, v)
  {
    hide CoreValid, Handled, MakePureAck, StateOf, PersistEligible;
    NothingHandled(c, v);
    if !seg.flags.rst && !seg.flags.syn && seg.payload == [] && seg.flags.fin && At(seg.seqno, 1) == c.rcv.nxt {
      var c1 := c.(timeWait := Some(now + TIME_WAIT_DURATION));
      CoreFrame(c, c1, v);
      PureAckIsGenuine(key, c1, v, None);
      ReplyHandled(c1, v, MakePureAck(key, c1, None));
    }
  }

  lemma CoreFrame(c: Conn, c': Conn, v: View)
    requires CoreValid(c, v) && c' == c.(timeWait := c'.timeWait)
    ensures CoreValid(c', v) && (NoStall(c) ==> NoStall(c'))
  {
    hide SendValid, BufferValid, OptValid, Bounded, RttEstimator.Valid;
  }

  // ---------------------------------------------------------------- establishment

  /** Whether the SYN's acknowledgment gives a round-trip sample. */
  predicate SamplesSyn(c: Conn, now: int)
    requires |c.snd.pending| == 1
  {
    Eligible(c.snd.pending[0]) && c.snd.pending[0].firstSentAt <= now
  }

  lemma RetireSyn(c: Conn, active: bool, l: Ledger, now: int)
    requires |c.snd.pending| == 1 && SynEntry(c.snd.pending[0], c.localIsn, active, l)
    requires c.snd.una == c.localIsn && RttEstimator.Valid(c.rtt)
    ensures var c' := RetireAcknowledged(c, At(c.localIsn, 1), now).0;
            && c' == c.(snd := c.snd.(una := At(c.localIsn, 1), pending := []), rtt := c'.rtt)
            && RttEstimator.Valid(c'.rtt)
  {
    var e := c.snd.pending[0];
    AtZero(c.localIsn);
    ComparePositions(c.localIsn, 1, 0);
    ComparePositions(c.localIsn, 1, 1);
    assert c.snd.pending[1..] == [];
    assert Retire(c.snd.pending[1..], At(c.localIsn, 1)) == Retirement([], 0, None, false);
    assert Retire(c.snd.pending, At(c.localIsn, 1)).pending == [];
    if SamplesSyn(c, now) {
      SampleKeepsValid(c.rtt, now - e.firstSentAt);
    }
  }

  /** A connection that has just been established. */
  lemma EstablishedValid(c: Conn, v: View)
    requires c.localIsn == v.ledger.isn && v.ledger.stream == [] && v.ledger.sampledEnd <= 1 && v.ledger.episode == {}
    requires v.ledger.resent <= {1} && v.una == 1 && v.nxt == 1 && !v.finSent && v.delivered == [] && !v.peerFin
             && !v.passive
    requires c.snd.una == At(c.localIsn, 1) == c.snd.nxt && c.snd.pending == [] && c.snd.unsent == []
             && c.snd.finSeq.None?
    requires c.remoteKnown && v.peerKnown && v.peerIsn == c.remoteIsn && v.rcv == 1 && OptValid(c.opt)
    requires c.rcv == RecvState(At(c.remoteIsn, 1), [], None) && RttEstimator.Valid(c.rtt)
    requires c.cc == Congestion(InitialCwnd(c.opt.sendMss), INITIAL_SSTHRESH, 0, false, 0, 0)
    requires c.persist == PersistState(None, INITIAL_PERSIST_INTERVAL) && c.timeWait.None? && !c.removal
             && c.state == Established
    ensures SyncValid(c, v)
  {
    hide RttEstimator.Valid, OptValid;
    assert 1 <= c.opt.sendMss <= 1460 by { SendMssRange(c.opt); }
    InitialBounded(c.opt.sendMss, c.cc);
  }

  lemma SendMssRange(opt: Negotiated)
    requires OptValid(opt)
    ensures 1 <= opt.sendMss <= 1460
  {
  }

  lemma NegotiateValid(o: ParsedOptions)
    requires o.mss.Some? ==> o.mss.value > 0
    ensures OptValid(Negotiate(o))
  {
  }

  function ConnectView(c: Conn, v: View, seg: Segment, now: int): View
    requires |c.snd.pending| == 1
  {
    v.(una := 1, peerKnown := true, peerIsn := seg.seqno, rcv := 1,
       ledger := SampledLedger(v.ledger, SamplesSyn(c, now), 1))
  }

  function SynSentView(c: Conn, v: View, seg: Segment, now: int): View
    requires |c.snd.pending| == 1
  {
    if CompletesConnect(c, seg) then ConnectView(c, v, seg, now) else v
  }

  lemma HandleSynSentKeepsValid(key: Key, c: Conn, v: View, seg: Segment, now: int)
    requires SynSentValid(c, v)
    ensures var (c', r) := HandleSynSent(key, c, seg, now);
            Handled(c', r, v, SynSentView(c, v, seg, now))
  {
    hide ParseOptions, RttEstimator.Valid, OptValid, RetireAcknowledged, SyncValid, IsGenuine, MakeSegment, At,
         InitialCwnd;
    NothingHandled(c, v);
    if CompletesConnect(c, seg) {
      ParsedMssPositive(seg.options, NO_OPTIONS) by { ParseIsParseFrom(seg.options); }
      ParseIsParseFrom(seg.options);
      var opt := Negotiate(ParseOptions(seg.options).value);
      NegotiateValid(ParseOptions(seg.options).value);
      var c1 := c.(remoteIsn := seg.seqno, remoteKnown := true, rcv := c.rcv.(nxt := At(seg.seqno, 1)),
                   opt := opt, cc := c.cc.(cwnd := InitialCwnd(opt.sendMss)), state := Established);
      RetireSyn(c1, true, v.ledger, now);
      var c2 := RetireAcknowledged(c1, seg.ackno, now).0;
      var c3 := c2.(snd := c2.snd.(wnd := seg.window, wl1 := seg.seqno, wl2 := seg.ackno));
      var v' := ConnectView(c, v, seg, now);
      EstablishedValid(c3, v');
      SyncIsValid(c3, v');
      SyncIsCore(c3, v');
      AckIsGenuine(key, c3, v');
      var reply := MakeSegment(key, c3, c3.snd.nxt, ACK, [], []);
      assert Sent(Replying(reply).(established := true)) == [reply];
    }
  }

  lemma ParseIsParseFrom(o: seq<u8>)
    ensures ParseOptions(o) == ParseFrom(o, NO_OPTIONS)
  {
  }

  lemma AckIsGenuine(key: Key, c: Conn, v: View)
    requires CoreValid(c, v)
    ensures IsGenuine(MakeSegment(key, c, c.snd.nxt, ACK, [], []), v)
  {
    hide AdvertisedWindow, SendValid, BufferValid, OptValid, Bounded, RttEstimator.Valid;
    SendOrder(c.snd, v);
    assert Genuine(MakeSegment(key, c, c.snd.nxt, ACK, [], []), v.nxt, v.rcv, v);
  }

  function SynReceivedView(c: Conn, v: View, seg: Segment, now: int): View
    requires |c.snd.pending| == 1
  {
    if !seg.flags.rst && seg.flags.ack && !seg.flags.syn && CompletesAccept(c, seg)
    then v.(una := 1, ledger := SampledLedger(v.ledger, SamplesSyn(c, now), 1)) else v
  }

  lemma SynAckIsGenuine(key: Key, c: Conn, v: View)
    requires SynReceivedValid(c, v)
    ensures IsGenuine(MakeSynAck(key, c), v)
  {
    hide AdvertisedWindow, BuildSynAckOptions, RttEstimator.Valid, OptValid;
    AtZero(c.localIsn);
    assert Genuine(MakeSynAck(key, c), 0, 1, v);
  }

  lemma HandleSynReceivedKeepsValid(key: Key, c: Conn, v: View, seg: Segment, now: int)
    requires SynReceivedValid(c, v)
    ensures var (c', r) := HandleSynReceived(key, c, seg, now);
            Handled(c', r, v, SynReceivedView(c, v, seg, now))
  {
    hide RttEstimator.Valid, OptValid, RetireAcknowledged, SyncValid, IsGenuine, MakeSynAck, At, InitialCwnd,
         DecodePeerWindow;
    NothingHandled(c, v);
    if seg.flags.rst {
    } else if seg.flags.syn && !seg.flags.ack {
      if seg.seqno == c.remoteIsn {
        SynAckIsGenuine(key, c, v);
        var c1 := HandleSynReceived(key, c, seg, now).0;
        ReplyHandled(c1, v, MakeSynAck(key, c));
      }
    } else if seg.flags.ack && !seg.flags.syn && CompletesAccept(c, seg) {
      var c1 := c.(state := Established, rcv := c.rcv.(nxt := At(c.remoteIsn, 1)),
                   snd := c.snd.(una := c.localIsn, nxt := At(c.localIsn, 1)));
      RetireSyn(c1, false, v.ledger, now);
      var c' := HandleSynReceived(key, c, seg, now).0;
      var v' := SynReceivedView(c, v, seg, now);
      EstablishedValid(c', v');
      SyncIsValid(c', v');
      assert Sent(NOTHING) == [];
    }
  }
}
