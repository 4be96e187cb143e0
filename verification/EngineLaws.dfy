/**
 What single events do, as a peer or an application sees it: establishment, resets, replies,
 refused writes, and the deadlines of timers.
 */
module EngineLaws {
  import opened Primitives
  import opened SequenceSpace
  import opened TcpOptions
  import opened TcpSegments
  import opened TcpTypes
  import opened Receiving
  import opened CongestionControl
  import opened Sending
  import opened TcpEngine
  import opened PendingQueue
  import opened ReceiveInvariant
  import opened ConnInvariant
  import opened AckPhase
  import opened ReceivePhase
  import opened SendPhase
  import opened ConnSteps
  import opened CallSteps
  import opened ConnRuns

  // ---------------------------------------------------------------- establishment

  /** The segments that open a connection, and what their options offer. */
  lemma OpenerLaws(key: Key, c: Conn)
    requires c.rcv.fragments == [] && c.rcv.pendingFin.None?
    ensures var syn := MakeActiveSyn(key, c);
            && syn.flags == SYN && syn.seqno == c.localIsn && syn.payload == [] && syn.window == 65535
            && syn.sourcePort == key.localPort && syn.destinationPort == key.remotePort
            && ParseOptions(syn.options) == Ok(ParsedOptions(Some(1460), Some(2), true, []))
    ensures var answer := MakeSynAck(key, c);
            && answer.flags == SYN_ACK && answer.seqno == c.localIsn && answer.ackno == At(c.remoteIsn, 1)
            && answer.payload == [] && answer.window == 65535
            && answer.sourcePort == key.localPort && answer.destinationPort == key.remotePort
            && ParseOptions(answer.options)
               == Ok(ParsedOptions(Some(1460), if c.opt.scaling then Some(c.opt.localScale) else None, c.opt.sack, []))
  {
    hide ParseOptions, BuildSynAckOptions, BuildActiveSynOptions, At;
    ActiveSynRoundTrip();
    SynAckRoundTrip(c.opt.sack, c.opt.scaling, c.opt.localScale);
  }

  /** The segment is exactly the SYN-ACK an active opener waits for. */
  predicate AnswersSyn(c: Conn, seg: Segment) {
    && seg.flags.syn && seg.flags.ack && !seg.flags.rst && !seg.flags.fin && seg.payload == []
    && seg.ackno == At(c.localIsn, 1) && ParseOptions(seg.options).Ok?
  }

  /**
   An active open completes exactly with the awaited SYN-ACK: both sequence variables start after
   the SYNs, the window is taken unscaled, and the answer is the final ACK.
   */
  lemma ConnectLaws(key: Key, c: Conn, v: View, seg: Segment, now: int)
    requires SynSentValid(c, v)
    ensures var (c', r) := Handle(key, c, seg, now);
            && (c'.state == Established <==> AnswersSyn(c, seg))
            && (AnswersSyn(c, seg) ==>
                  && c'.rcv.nxt == At(seg.seqno, 1) && c'.snd.una == c'.snd.nxt == At(c.localIsn, 1)
                  && c'.snd.wnd == seg.window && c'.snd.pending == [] && r.established
                  && r.reply.Some? && r.reply.value.flags == ACK && r.reply.value.payload == []
                  && r.reply.value.seqno == At(c.localIsn, 1) && r.reply.value.ackno == At(seg.seqno, 1))
  {
    hide ParseOptions, RetireAcknowledged, InitialCwnd, Negotiate, AdvertisedWindow, RttEstimator.Valid, At;
    if AnswersSyn(c, seg) {
      var opt := Negotiate(ParseOptions(seg.options).value);
      RetireSyn(c.(remoteIsn := seg.seqno, remoteKnown := true, rcv := c.rcv.(nxt := At(seg.seqno, 1)),
                   opt := opt, cc := c.cc.(cwnd := InitialCwnd(opt.sendMss)), state := Established),
                true, v.ledger, now);
    }
  }

  /** The segment is exactly the final ACK a listener waits for. */
  predicate AnswersSynAck(c: Conn, seg: Segment) {
    seg.flags.ack && !seg.flags.syn && !seg.flags.rst && seg.ackno == At(c.localIsn, 1)
    && seg.seqno == At(c.remoteIsn, 1)
  }

  /** A passive open completes exactly with the final ACK, whose window is already scaled. */
  lemma AcceptLaws(key: Key, c: Conn, v: View, seg: Segment, now: int)
    requires SynReceivedValid(c, v)
    ensures var (c', r) := Handle(key, c, seg, now);
            && (c'.state == Established <==> AnswersSynAck(c, seg)) && (AnswersSynAck(c, seg) ==> r == NOTHING)
            && (AnswersSynAck(c, seg) ==>
                  && c'.rcv.nxt == At(c.remoteIsn, 1) && c'.snd.una == c'.snd.nxt == At(c.localIsn, 1)
                  && c'.snd.pending == []
                  && c'.snd.wnd == Scaled(seg.window, if c.opt.scaling then c.opt.peerScale else 0))
  {
    hide RetireAcknowledged, MakeSynAck, RttEstimator.Valid, At, InitialCwnd, Shift;
    if AnswersSynAck(c, seg) {
      RetireSyn(c.(state := Established, rcv := c.rcv.(nxt := At(c.remoteIsn, 1)),
                   snd := c.snd.(una := c.localIsn, nxt := At(c.localIsn, 1))), false, v.ledger, now);
      ShiftIsScaled(seg.window, c.opt.peerScale);
    }
  }

  function Power2(k: nat): nat { if k == 0 then 1 else 2 * Power2(k - 1) }

  function Scaled(window: nat, scale: nat): nat { window * Power2(scale) }

  lemma {:induction false} ShiftIsScaled(window: nat, scale: nat)
    ensures Shift(window, scale) == Scaled(window, scale)
    decreases scale
  {
    hide Power2;
    if scale > 0 {
      ShiftIsScaled(2 * window, scale - 1);
      Doubling(scale);
      Associates(window, Power2(scale - 1));
    } else {
      assert Power2(0) == 1 by { Doubling(1); }
    }
  }

  lemma Doubling(k: nat)
    requires k > 0
    ensures Power2(k) == 2 * Power2(k - 1) && Power2(0) == 1
  {
  }

  lemma Associates(a: nat, b: nat)
    ensures 2 * a * b == a * (2 * b)
  {
  }

  // ---------------------------------------------------------------- resets

  /** Where a reset has to stand to be believed. */
  predicate BelievedReset(c: Conn, seg: Segment) {
    match c.state
    case SynSent => seg.flags.ack && seg.ackno == c.snd.nxt && ParseOptions(seg.options).Ok?
    case SynReceived => seg.seqno == At(c.remoteIsn, 1)
    case TimeWait => seg.seqno == c.rcv.nxt
    case _ => seg.seqno == c.rcv.nxt && (ParseOptions(seg.options).Ok? && !seg.flags.syn)
  }

  /** A reset removes the connection exactly when it is believed, is never answered, and otherwise changes nothing. */
  lemma ResetLaws(key: Key, c: Conn, seg: Segment, now: int)
    requires seg.flags.rst
    ensures var (c', r) := Handle(key, c, seg, now);
            c' == (if BelievedReset(c, seg) then c.(removal := true) else c) && Sent(r) == [] && r.accepted == []
  {
    hide ParseOptions, At;
  }

  // ---------------------------------------------------------------- replies

  /**
   A segment with an acceptable ACK is answered with a pure ACK when it brought payload or a FIN and
   nothing else is sent or handed over, or when there are SACK blocks to report; otherwise it is not,
   so that ACKs are never answered with ACKs.
   */
  lemma ReplyLaw(key: Key, c: Conn, seg: Segment, now: int)
    requires c.Synchronized() && c.state != TimeWait && AckAcceptable(c, seg)
    ensures var (c', r) := Handle(key, c, seg, now);
            r.reply.Some? <==>
              || (c'.opt.sack && c'.rcv.fragments != [])
              || ((seg.payload != [] || seg.flags.fin) && r.accepted == [] && r.scheduled == [])
  {
    hide ProcessAck, Receive, ScheduleIfSendable, MakePureAck, AnyPayloadInWindow, FinAccepted, ParseOptions,
         SeqLessOrEqual;
  }

  /** A pure ACK of everything received. */
  predicate PureAckOf(seg: Segment, c: Conn) {
    seg.flags == ACK && seg.payload == [] && seg.seqno == c.snd.nxt && seg.ackno == c.rcv.nxt
  }

  predicate RepeatsFin(c: Conn, seg: Segment) {
    !seg.flags.rst && !seg.flags.syn && seg.flags.fin && seg.payload == [] && At(seg.seqno, 1) == c.rcv.nxt
  }

  predicate RepeatsSynAck(c: Conn, seg: Segment) {
    && seg.flags.syn && seg.flags.ack && !seg.flags.rst && !seg.flags.fin && seg.payload == []
    && c.remoteKnown && seg.seqno == c.remoteIsn && seg.ackno == At(c.localIsn, 1)
  }

  /**
   Repeated handshake segments: a synchronized connection answers exactly its own SYN-ACK, when that
   comes again, with a pure ACK, and a listener answers exactly its own SYN with the same SYN-ACK, whose
   timer starts again without counting a timeout.  In TIME-WAIT exactly a repeated FIN is answered.
   */
  lemma RepeatLaws(key: Key, c: Conn, v: View, seg: Segment, now: int)
    requires ConnValid(c, v)
    ensures var (c', r) := Handle(key, c, seg, now);
            && (c.Synchronized() && c.state != TimeWait && seg.flags.syn ==>
                  && c' == c && (r.reply.Some? <==> RepeatsSynAck(c, seg))
                  && (r.reply.Some? ==> PureAckOf(r.reply.value, c)))
            && (c.state == TimeWait ==>
                  (r.reply.Some? <==> RepeatsFin(c, seg)) && (r.reply.Some? ==> PureAckOf(r.reply.value, c)))
            && (c.state == SynReceived ==>
                  && (r.reply.Some? <==> seg.flags.syn && !seg.flags.ack && !seg.flags.rst && seg.seqno == c.remoteIsn)
                  && (r.reply.Some? ==>
                        && r.reply.value.flags == SYN_ACK && r.reply.value.seqno == c.localIsn
                        && r.reply.value.ackno == At(c.remoteIsn, 1) && |c'.snd.pending| == |c.snd.pending| == 1
                        && c'.snd.pending[0] == c.snd.pending[0].(lastSentAt := now)))
  {
    hide SyncValid, ParseOptions, AdvertisedWindow, BuildSynAckOptions, BuildSackOptions, GenerateSackBlocks,
         RetireAcknowledged, At, RttEstimator.Valid, OptValid, InitialCwnd, ProcessAck, AfterAck, SeqLessOrEqual,
         DecodePeerWindow;
  }

  // ---------------------------------------------------------------- the scoreboard

  /** Every data entry that the report covers is marked. */
  ghost predicate ReportedAreMarked(pending: seq<Pending>, ack: u32, nxt: u32, blocks: seq<SackBlock>) {
    forall e | e in pending && e.IsData() && Covered(e, ack, nxt, blocks) :: e.sacked
  }

  lemma {:induction false} MarkingMarks(pending: seq<Pending>, ack: u32, nxt: u32, blocks: seq<SackBlock>)
    ensures ReportedAreMarked(MarkSacked(pending, ack, nxt, blocks), ack, nxt, blocks)
    decreases |pending|
  {
    hide Covered;
    if pending != [] {
      MarkingMarks(pending[1..], ack, nxt, blocks);
      CoverIgnoresMarks(pending[0], ack, nxt, blocks);
    }
  }

  lemma CoverIgnoresMarks(e: Pending, ack: u32, nxt: u32, blocks: seq<SackBlock>)
    ensures Covered(e.(sacked := true), ack, nxt, blocks) <==> Covered(e, ack, nxt, blocks)
  {
  }

  /** Entries that differ only in marks and times, where no SACK mark is lost. */
  predicate KeepsMarks(ps: seq<Pending>, qs: seq<Pending>) {
    |ps| == |qs| && (ps != [] ==>
      && qs[0].start == ps[0].start && qs[0].payload == ps[0].payload && qs[0].IsData() == ps[0].IsData()
      && qs[0].sacked == ps[0].sacked && KeepsMarks(ps[1..], qs[1..]))
  }

  lemma {:induction false} MarkedStillMarked(ps: seq<Pending>, qs: seq<Pending>, ack: u32, nxt: u32,
                                             blocks: seq<SackBlock>)
    requires KeepsMarks(ps, qs) && ReportedAreMarked(ps, ack, nxt, blocks)
    ensures ReportedAreMarked(qs, ack, nxt, blocks)
    decreases |ps|
  {
    if ps != [] {
      assert ps[0] in ps && forall e | e in ps[1..] :: e in ps;
      MarkedStillMarked(ps[1..], qs[1..], ack, nxt, blocks);
      assert Covered(qs[0], ack, nxt, blocks) <==> Covered(ps[0], ack, nxt, blocks);
    }
  }

  lemma {:induction false} ClearKeepsMarks(ps: seq<Pending>)
    ensures KeepsMarks(ps, ps) && KeepsMarks(ps, ClearRecovered(ps))
    decreases |ps|
  {
    if ps != [] {
      ClearKeepsMarks(ps[1..]);
      assert ClearRecovered(ps)[1..] == ClearRecovered(ps[1..]);
    }
  }

  lemma {:induction false} UpdateKeepsMarks(ps: seq<Pending>, i: nat, now: int)
    requires i < |ps|
    ensures KeepsMarks(ps, ps[i := ps[i].(resent := true, recovered := true, lastSentAt := now)])
    decreases |ps|
  {
    var q := ps[i].(resent := true, recovered := true, lastSentAt := now);
    if i == 0 {
      ClearKeepsMarks(ps[1..]);
      assert ps[i := q][1..] == ps[1..];
    } else {
      UpdateKeepsMarks(ps[1..], i - 1, now);
      assert ps[i := q][1..] == ps[1..][i - 1 := q];
    }
  }

  lemma RecoveryKeepsMarks(key: Key, c: Conn, now: int)
    ensures KeepsMarks(c.snd.pending, RecoveryResend(key, c, now).0.snd.pending)
  {
    hide SelectRecovery, KeepsMarks, ResendSegment;
    ClearKeepsMarks(c.snd.pending);
    var i := SelectRecovery(c.snd.pending, c.cc.recoveryPoint);
    if i.Some? && i.value < |c.snd.pending| {
      UpdateKeepsMarks(c.snd.pending, i.value, now);
    }
  }

  lemma MarksThrough(key: Key, c: Conn, now: int, ack: u32, nxt: u32, blocks: seq<SackBlock>)
    requires ReportedAreMarked(c.snd.pending, ack, nxt, blocks)
    ensures ReportedAreMarked(RecoveryResend(key, c, now).0.snd.pending, ack, nxt, blocks)
    ensures ReportedAreMarked(ClearRecovered(c.snd.pending), ack, nxt, blocks)
  {
    hide ReportedAreMarked, RecoveryResend, KeepsMarks;
    RecoveryKeepsMarks(key, c, now);
    ClearKeepsMarks(c.snd.pending);
    MarkedStillMarked(c.snd.pending, RecoveryResend(key, c, now).0.snd.pending, ack, nxt, blocks);
    MarkedStillMarked(c.snd.pending, ClearRecovered(c.snd.pending), ack, nxt, blocks);
  }

  /** Where SACK was negotiated, the report of an acknowledgment is on the scoreboard when it has been processed. */
  lemma ReportIsMarked(key: Key, c: Conn, seg: Segment, blocks: seq<SackBlock>, now: int)
    requires c.opt.sack
    ensures ReportedAreMarked(ProcessAck(key, c, seg, blocks, now).0.snd.pending, seg.ackno, c.snd.nxt, blocks)
  {
    hide RetireAcknowledged, MarkSacked, RecoveryResend, ClearRecovered, LocalFinAcked, IsDuplicateAck,
         ReportedAreMarked, DecodePeerWindow, Flight, SeqLessOrEqual, SeqGreater;
    var (c1, r) := RetireAcknowledged(c, seg.ackno, now);
    RetireFrame(c, seg.ackno, now);
    MarkingMarks(c1.snd.pending, seg.ackno, c.snd.nxt, blocks);
    assert ReportedAreMarked([], seg.ackno, c.snd.nxt, blocks) by { NothingReported(seg.ackno, c.snd.nxt, blocks); }
    var c2 := ApplySack(c1, seg.ackno, blocks);
    var c3 := c2.(snd := UpdateSendWindow(c2.snd, c2.opt, seg));
    assert c3.snd.pending == MarkSacked(c1.snd.pending, seg.ackno, c.snd.nxt, blocks);
    forall d: Conn | ReportedAreMarked(d.snd.pending, seg.ackno, c.snd.nxt, blocks)
      ensures ReportedAreMarked(RecoveryResend(key, d, now).0.snd.pending, seg.ackno, c.snd.nxt, blocks)
      ensures ReportedAreMarked(ClearRecovered(d.snd.pending), seg.ackno, c.snd.nxt, blocks)
    {
      MarksThrough(key, d, now, seg.ackno, c.snd.nxt, blocks);
    }
  }

  lemma NothingReported(ack: u32, nxt: u32, blocks: seq<SackBlock>)
    ensures ReportedAreMarked([], ack, nxt, blocks)
  {
  }

  // ---------------------------------------------------------------- writes

  /** What the application has written and the peer has not acknowledged. */
  function Unacknowledged(v: View): int { 1 + |v.ledger.stream| - Min(v.una, 1 + |v.ledger.stream|) }

  /** A write is refused exactly for these reasons, in this order, and a refused write changes nothing. */
  lemma WriteLaws(key: Key, c: Conn, v: View, payload: seq<u8>, now: int)
    requires ConnValid(c, v)
    ensures var (c', r) := MakeOutgoingData(key, c, payload, now);
            && (r == Err(EmptyPayload) <==> payload == [])
            && (r == Err(TooLarge) <==> |payload| > 65535)
            && (r == Err(NotSendable) <==>
                  0 < |payload| <= 65535 && (!(c.state == Established || c.state == CloseWait) || c.snd.closeRequested))
            && (r.Ok? <==> && 0 < |payload| <= 65535 && (c.state == Established || c.state == CloseWait)
                           && !c.snd.closeRequested && Unacknowledged(v) + |payload| <= 262144)
            && (r.Err? ==> c' == c)
  {
    hide Schedule, SendValid, RecvValid, RecoveryValid, NoStall, RttEstimator.Valid, OwnedBytes, StateOf;
    if c.Sendable() {
      SendableIsOpen(c, v);
      CoreHasSend(c, v);
      FlightBound(c.snd, v);
      OpenHasNoFin(c.snd, v);
    }
  }

  lemma OpenHasNoFin(s: SendState, v: View)
    requires SendValid(s, v) && !v.finSent
    ensures v.una <= 1 + |v.ledger.stream|
  {
  }

  // ---------------------------------------------------------------- timers

  /** An entry as it enters the queue: sent now, due after the current timeout, never resent or measured. */
  predicate JustSent(e: Pending, now: int, rto: int) {
    && e.firstSentAt == now && e.Deadline() == now + rto && e.interval == rto && e.timeouts == 0
    && !e.resent && !e.sampled && !e.sacked && !e.recovered
  }

  lemma {:induction false} EntriesJustSent(segs: seq<Segment>, now: int, rto: int)
    ensures forall e | e in Entries(segs, now, rto) :: JustSent(e, now, rto)
    decreases |segs|
  {
    if segs != [] {
      EntriesJustSent(segs[1..], now, rto);
    }
  }

  /** A pass keeps the queue and appends entries that have just been sent, one for each segment. */
  lemma PassAppends(key: Key, c: Conn, now: int)
    ensures var (c', segs) := Schedule(key, c, now);
            var before := c.snd.pending;
            && |c'.snd.pending| == |before| + |segs| && c'.snd.pending[..|before|] == before
            && forall e | e in c'.snd.pending[|before|..] :: JustSent(e, now, c.rtt.rto)
  {
    hide Segments, Entries, ToSend, PersistEligible, AvailableSendWindow;
    var n := ToSend(c);
    ToSendBound(c);
    var segs := Segments(key, c, c.snd.nxt, c.snd.unsent[..n], n == |c.snd.unsent|);
    EntriesJustSent(segs, now, c.rtt.rto);
    EntryEach(segs, now, c.rtt.rto);
  }

  lemma {:induction false} EntryEach(segs: seq<Segment>, now: int, rto: int)
    ensures |Entries(segs, now, rto)| == |segs|
    decreases |segs|
  {
    if segs != [] {
      EntryEach(segs[1..], now, rto);
    }
  }

  /** The first timer of a connection runs for a second. */
  lemma FirstTimer(key: Key, isn: u32, seg: Segment, o: ParsedOptions, now: int)
    ensures var c := Connect(key, isn, now).0; |c.snd.pending| == 1 && JustSent(c.snd.pending[0], now, SECOND)
    ensures var c := Listen(key, isn, seg, o, now).0; |c.snd.pending| == 1 && JustSent(c.snd.pending[0], now, SECOND)
  {
    hide BuildSynAckOptions, BuildActiveSynOptions, AdvertisedWindow, InitialCwnd;
  }

  /** A recovery resend starts the timer of its entry again and marks it; no other entry changes. */
  lemma RecoveryRestartsTimer(key: Key, c: Conn, now: int)
    ensures var (c', fast) := RecoveryResend(key, c, now);
            fast.Some? ==>
              exists i: nat | i < |c.snd.pending| ::
                var e := c.snd.pending[i];
                && fast.value.seqno == e.start && fast.value.payload == e.payload && !e.sacked && !e.recovered
                && e.IsData()
                && c'.snd.pending == c.snd.pending[i := e.(resent := true, recovered := true, lastSentAt := now)]
                && c'.snd.pending[i].Deadline() == now + e.interval
  {
    hide AdvertisedWindow;
    var i := SelectRecovery(c.snd.pending, c.cc.recoveryPoint);
    if i.Some? {
      SelectedIsPlain(c.snd.pending, c.cc.recoveryPoint);
    }
  }

  lemma {:induction false} SelectedIsPlain(pending: seq<Pending>, point: u32)
    ensures var i := SelectRecovery(pending, point);
            i.Some? ==>
              && i.value < |pending| && pending[i.value].IsData()
              && !pending[i.value].sacked && !pending[i.value].recovered
    decreases |pending|
  {
    if pending != [] {
      SelectedIsPlain(pending[1..], point);
    }
  }

  /** The persist timer starts with a second and keeps running while it is needed. */
  lemma PersistTimer(c: Conn, now: int)
    ensures var c' := UpdatePersist(c, now);
            && (c'.persist.deadline.Some? <==> PersistEligible(c))
            && (PersistEligible(c) && c.persist.deadline.None? ==>
                  c'.persist.deadline == Some(now + SECOND) && c'.persist.interval == SECOND)
            && (PersistEligible(c) && c.persist.deadline.Some? ==> c' == c)
  {
  }

  /** When the persist timer should run: everything sent is acknowledged, bytes wait, and the window is closed. */
  lemma PersistNeed(c: Conn, v: View)
    requires SyncValid(c, v)
    ensures PersistEligible(c) <==>
            && (c.state == Established || c.state == CloseWait) && c.snd.unsent != [] && c.snd.wnd == 0
            && v.una == v.nxt
  {
    hide RecvValid, RecoveryValid, NoStall, RttEstimator.Valid, Tiles, HistoryBelow;
    FlightBound(c.snd, v);
    SubOfPositions(v.ledger.isn, v.nxt, v.una);
    FinSentInState(v);
  }

  /**
   After a timeout the oldest entry is due again after twice the time, up to a minute, and the others keep
   theirs; a timeout of data forgets the scoreboard.
   */
  lemma TimeoutDeadlines(key: Key, c: Conn, now: int)
    requires c.snd.pending != []
    ensures var pending, pending' := c.snd.pending, ResendOldest(key, c, now).0.snd.pending;
            && |pending'| == |pending| && pending'[0].Deadline() == now + Min(2 * pending[0].interval, 60 * SECOND)
            && pending'[0].timeouts == pending[0].timeouts + 1 && pending'[0].resent
            && (forall i | 0 < i < |pending| :: pending'[i].Deadline() == pending[i].Deadline())
            && (pending[0].IsData() ==> forall i | 0 <= i < |pending| :: !pending'[i].sacked && !pending'[i].recovered)
  {
    hide TimeoutSegment, Collapse, ClearScoreboard, Flight;
    forall i | 0 <= i < |c.snd.pending|
      ensures ClearScoreboard(c.snd.pending)[i] == c.snd.pending[i].(sacked := false, recovered := false)
    {
      ClearedAt(c.snd.pending, i);
    }
  }

  lemma {:induction false} ClearedAt(pending: seq<Pending>, i: nat)
    requires i < |pending|
    ensures ClearScoreboard(pending)[i] == pending[i].(sacked := false, recovered := false)
    decreases |pending|
  {
    if i > 0 {
      ClearedAt(pending[1..], i - 1);
    }
  }

  /** The connection is in TIME-WAIT only if it was before, or since now and for a minute. */
  predicate WaitsFrom(c: Conn, c': Conn, now: int) {
    c'.state == TimeWait ==>
      (c.state == TimeWait && c'.timeWait == c.timeWait) || c'.timeWait == Some(now + 60 * SECOND)
  }

  lemma AckWaits(key: Key, c: Conn, seg: Segment, blocks: seq<SackBlock>, now: int)
    ensures WaitsFrom(c, ProcessAck(key, c, seg, blocks, now).0, now)
  {
    hide Responded, LocalFinAcked, OnAdvance, OnDuplicate, RetireAcknowledged, ApplySack, UpdateSendWindow;
    RespondedFrame(key, c, seg, blocks, now);
    assert ProcessAck(key, c, seg, blocks, now).0 == OnFinAcked(Responded(key, c, seg, blocks, now).0, now) by {
      ResponseThenFin(key, c, seg, blocks, now);
    }
  }

  lemma ResponseThenFin(key: Key, c: Conn, seg: Segment, blocks: seq<SackBlock>, now: int)
    ensures ProcessAck(key, c, seg, blocks, now).0 == OnFinAcked(Responded(key, c, seg, blocks, now).0, now)
  {
    hide OnAdvance, OnDuplicate, RetireAcknowledged, ApplySack, UpdateSendWindow, OnFinAcked;
  }

  lemma ReceiveWaits(c: Conn, seg: Segment, now: int)
    ensures WaitsFrom(c, Receive(c, seg, now).conn, now)
  {
    hide Released, Receive;
    ReceiveCases(c, seg, now);
  }

  lemma ScheduleWaits(key: Key, c: Conn, now: int)
    ensures var c' := ScheduleIfSendable(key, c, now).0;
            c'.timeWait == c.timeWait && (c'.state == TimeWait <==> c.state == TimeWait)
  {
    hide ScheduleData, AvailableSendWindow, PersistEligible;
    ScheduleDataFrame(key, c, now);
  }

  lemma WaitsOn(c: Conn, c1: Conn, c2: Conn, now: int)
    requires WaitsFrom(c, c1, now) && WaitsFrom(c1, c2, now)
    ensures WaitsFrom(c, c2, now)
  {
  }

  lemma ArrivalWaits(key: Key, c: Conn, seg: Segment, now: int)
    requires c.Synchronized() && c.state != TimeWait
    ensures WaitsFrom(c, HandleSynchronized(key, c, seg, now).0, now)
  {
    hide ProcessAck, AfterAck, ParseOptions, MakePureAck, Receive, ScheduleIfSendable, Absorbs, WaitsFrom,
         SeqLessOrEqual;
    assert WaitsFrom(c, c, now) && WaitsFrom(c, c.(removal := true), now) by { StillWaits(c, now); }
    if AckAcceptable(c, seg) {
      var blocks := ParseOptions(seg.options).value.sackBlocks;
      var (c1, fast) := ProcessAck(key, c, seg, blocks, now);
      AckWaits(key, c, seg, blocks, now);
      AfterAckCases(key, c1, seg, fast, now);
      var c0 := if Absorbs(c1, seg) then Receive(c1, seg, now).conn else c1;
      ReceiveWaits(c1, seg, now);
      StillWaits(c1, now);
      WaitsOn(c, c1, c0, now);
      ScheduleWaits(key, c0, now);
      WaitsAlike(c, c0, ScheduleIfSendable(key, c0, now).0, now);
    }
  }

  lemma StillWaits(c: Conn, now: int)
    ensures WaitsFrom(c, c, now) && WaitsFrom(c, c.(removal := true), now)
  {
  }

  lemma WaitsAlike(c: Conn, c1: Conn, c2: Conn, now: int)
    requires WaitsFrom(c, c1, now) && c2.timeWait == c1.timeWait && (c2.state == TimeWait <==> c1.state == TimeWait)
    ensures WaitsFrom(c, c2, now)
  {
  }

  lemma CallsDoNotWait(key: Key, c: Conn, e: Event, now: int)
    requires !e.Deliver?
    ensures var c' := Step(key, c, e, now).0;
            (c'.state == TimeWait <==> c.state == TimeWait) && c'.timeWait == c.timeWait
  {
    hide Schedule, MaybeSequenceFin, UpdatePersist, PersistEligible, OwnedBytes, ResendOldest, Pending.Deadline,
         MakeSegment;
    match e {
      case Write(payload) =>
        if SendCheck(c, payload).None? {
          PassDoesNotWait(key, Enqueue(c, payload), now);
        }
      case Close =>
        FinFrame(key, Requested(c), now);
        PersistWaits(MaybeSequenceFin(key, Requested(c), now).0, now);
      case PollRetransmissions =>
        if c.snd.pending != [] {
          ResendFrame(key, c, now);
        }
      case PollProbes =>
    }
  }

  lemma PersistWaits(c: Conn, now: int)
    ensures UpdatePersist(c, now) == c.(persist := UpdatePersist(c, now).persist)
  {
  }

  lemma PassDoesNotWait(key: Key, c: Conn, now: int)
    requires c.Sendable()
    ensures var c' := Schedule(key, c, now).0; c'.state != TimeWait && c'.timeWait == c.timeWait
  {
    hide ScheduleData, MaybeSequenceFin, UpdatePersist;
    var c1 := ScheduleData(key, c, now).0;
    ScheduleDataFrame(key, c, now);
    FinFrame(key, c1, now);
    PersistWaits(c1, now);
    PersistWaits(MaybeSequenceFin(key, c1, now).0, now);
  }

  /**
   TIME-WAIT lasts a minute from its entry, and from every repeated FIN; the poll that finds it over
   removes the connection.
   */
  lemma TimeWaitLaws(key: Key, c: Conn, v: View, e: Event, now: int)
    requires SyncValid(c, v)
    ensures var c' := Step(key, c, e, now).0;
            && (c.state != TimeWait && c'.state == TimeWait ==> c'.timeWait == Some(now + 60 * SECOND))
            && (c.state == TimeWait ==>
                  && c.timeWait.Some?
                  && c'.timeWait == (if e.Deliver? && RepeatsFin(c, e.segment) then Some(now + 60 * SECOND)
                                     else c.timeWait)
                  && (e.PollRetransmissions? ==> (c'.removal <==> now >= c.timeWait.value)))
  {
    hide CoreValid, NoStall, StateOf, HandleSynchronized, MakePureAck, MakeOutgoingData, BeginClose, PollPersist,
         ResendOldest, Pending.Deadline, Sent, At;
    if !e.Deliver? {
      CallsDoNotWait(key, c, e, now);
    } else if c.state != TimeWait {
      ArrivalWaits(key, c, e.segment, now);
    }
  }
}
