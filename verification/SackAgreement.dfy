/**
 Selective acknowledgment across the network: an entry that one endpoint has marked as SACKed
 consists of bytes that the other one has delivered or holds.
 */
module SackAgreement {
  import opened Primitives
  import opened SequenceSpace
  import opened TcpOptions
  import opened TcpSegments
  import opened TcpTypes
  import opened Receiving
  import opened CongestionControl
  import opened Sending
  import opened TcpEngine
  import opened PendingQueue
  import opened ReceiveInvariant
  import opened ConnInvariant
  import opened AckPhase
  import opened ReceivePhase
  import opened SendPhase
  import opened ConnSteps
  import opened CallSteps
  import opened ConnRuns
  import opened Delivery
  import opened TwoEndpoints
  import opened Emissions
  import opened HonestReports

  // ---------------------------------------------------------------- what a mark means

  ghost predicate HasAll(e: End, from: nat, to: nat) { forall p: nat | from <= p < to :: Has(e, p) }

  /** Every entry of the queue at `pos` that is marked as SACKed is in the hands of the peer. */
  ghost predicate Marked(pending: seq<Pending>, pos: nat, peer: End) {
    pending != [] ==>
      && (pending[0].sacked ==> HasAll(peer, pos, pos + pending[0].Length()))
      && Marked(pending[1..], pos + pending[0].Length(), peer)
  }

  lemma {:induction false} MarkedStays(pending: seq<Pending>, pos: nat, peer: End, peer': End)
    requires Marked(pending, pos, peer) && Keeps(peer, peer')
    ensures Marked(pending, pos, peer')
    decreases |pending|
  {
    hide Has;
    if pending != [] {
      MarkedStays(pending[1..], pos + pending[0].Length(), peer, peer');
    }
  }

  /** Same ranges, and no mark that was not there. */
  predicate NoNewMarks(ps: seq<Pending>, qs: seq<Pending>) {
    |ps| == |qs| && (ps != [] ==> qs[0].Length() == ps[0].Length() && (qs[0].sacked ==> ps[0].sacked)
                                  && NoNewMarks(ps[1..], qs[1..]))
  }

  lemma {:induction false} NoNewMarksKeep(ps: seq<Pending>, qs: seq<Pending>, pos: nat, peer: End)
    requires Marked(ps, pos, peer) && NoNewMarks(ps, qs)
    ensures Marked(qs, pos, peer)
    decreases |ps|
  {
    hide HasAll;
    if ps != [] {
      NoNewMarksKeep(ps[1..], qs[1..], pos + ps[0].Length(), peer);
    }
  }

  lemma {:induction false} SameMarks(ps: seq<Pending>)
    ensures NoNewMarks(ps, ps) && NoNewMarks(ps, ClearRecovered(ps)) && NoNewMarks(ps, ClearScoreboard(ps))
    decreases |ps|
  {
    if ps != [] {
      SameMarks(ps[1..]);
      assert ClearRecovered(ps)[1..] == ClearRecovered(ps[1..]) && ClearScoreboard(ps)[1..] == ClearScoreboard(ps[1..]);
    }
  }

  lemma {:induction false} UpdateMarks(ps: seq<Pending>, i: nat, e: Pending)
    requires i < |ps| && e.Length() == ps[i].Length() && e.sacked == ps[i].sacked
    ensures NoNewMarks(ps, ps[i := e])
    decreases |ps|
  {
    if i == 0 {
      SameMarks(ps[1..]);
      assert ps[i := e][1..] == ps[1..];
    } else {
      UpdateMarks(ps[1..], i - 1, e);
      assert ps[i := e][1..] == ps[1..][i - 1 := e];
    }
  }

  lemma {:induction false} AppendMarked(ps: seq<Pending>, qs: seq<Pending>, pos: nat, peer: End)
    requires Marked(ps, pos, peer) && (forall q | q in qs :: !q.sacked)
    ensures Marked(ps + qs, pos, peer)
    decreases |ps| + |qs|
  {
    hide HasAll;
    if ps != [] {
      assert (ps + qs)[1..] == ps[1..] + qs;
      AppendMarked(ps[1..], qs, pos + ps[0].Length(), peer);
    } else {
      assert ps + qs == qs;
      if qs != [] {
        AppendMarked([], qs[1..], pos + qs[0].Length(), peer);
        assert [] + qs[1..] == qs[1..];
      }
    }
  }

  /** What an ACK leaves in the queue keeps its marks, the cut entry included. */
  lemma {:induction false} RetireMarked(pending: seq<Pending>, pos: nat, end: nat, l: Ledger, a: nat, peer: End)
    requires Tiles(pending, pos, end, l) && pos <= a <= end <= pos + REACH && Marked(pending, pos, peer)
    ensures Marked(Retire(pending, At(l.isn, a)).pending, a, peer)
    decreases |pending|
  {
    hide Has, MarksAt;
    if pending != [] {
      var e := pending[0];
      var next := pos + e.Length();
      CompareEntry(e, pos, a, l);
      TilesOrdered(pending[1..], next, end, l);
      if next <= a {
        RetireMarked(pending[1..], next, end, l, a, peer);
      } else if pos < a {
        var cut := e.(start := At(l.isn, a), payload := Drop(e.payload, a - pos), recovered := false);
        assert ([cut] + pending[1..])[1..] == pending[1..];
        assert a + cut.Length() == next;
      }
    }
  }

  /** A byte that a true block of the peer's report covers is in the hands of the peer. */
  lemma ReportedIsHad(isn: u32, ackPos: nat, p: nat, nxt: u32, blocks: seq<SackBlock>, peer: End)
    requires peer.Opened? && peer.v.peerIsn == isn && ReportTrue(blocks, ackPos, peer.c.rcv, peer.v)
    requires ackPos <= p < ackPos + MODULUS && Reported(At(isn, p), At(isn, ackPos), nxt, blocks)
    ensures Has(peer, p)
  {
    hide HasAt, At;
    SubOfPositions(isn, p, ackPos);
    var b :| b in blocks && TrueBlock(b, At(isn, ackPos), nxt) && InBlock(b, At(isn, ackPos), At(isn, p));
    assert BlockTrue(b, ackPos, peer.c.rcv, peer.v);
  }

  /** Marking with an honest report. */
  lemma {:induction false} SackMarked(pending: seq<Pending>, pos: nat, end: nat, l: Ledger, ackPos: nat, nxt: u32,
                                      blocks: seq<SackBlock>, peer: End)
    requires Tiles(pending, pos, end, l) && ackPos <= pos && end < ackPos + MODULUS && Marked(pending, pos, peer)
    requires peer.Opened? && peer.v.peerIsn == l.isn && ReportTrue(blocks, ackPos, peer.c.rcv, peer.v)
    ensures Marked(MarkSacked(pending, At(l.isn, ackPos), nxt, blocks), pos, peer)
    decreases |pending|
  {
    hide Has, MarksAt, Reported, ReportTrue, At;
    if pending != [] {
      var e := pending[0];
      var next := pos + e.Length();
      TilesOrdered(pending[1..], next, end, l);
      SackMarked(pending[1..], next, end, l, ackPos, nxt, blocks, peer);
      var marked := MarkSacked(pending, At(l.isn, ackPos), nxt, blocks);
      assert marked[1..] == MarkSacked(pending[1..], At(l.isn, ackPos), nxt, blocks);
      if e.IsData() && Covered(e, At(l.isn, ackPos), nxt, blocks) {
        forall p: nat | pos <= p < next
          ensures Has(peer, p)
        {
          AtAt(l.isn, pos, p - pos);
          assert Reported(At(e.start, p - pos), At(l.isn, ackPos), nxt, blocks);
          ReportedIsHad(l.isn, ackPos, p, nxt, blocks, peer);
        }
      }
    }
  }

  // ---------------------------------------------------------------- the marks through every event

  lemma RecoveryNoNewMarks(key: Key, c: Conn, now: int)
    ensures NoNewMarks(c.snd.pending, RecoveryResend(key, c, now).0.snd.pending)
  {
    hide SelectRecovery, ResendSegment, NoNewMarks;
    var i := SelectRecovery(c.snd.pending, c.cc.recoveryPoint);
    SameMarks(c.snd.pending);
    if i.Some? && i.value < |c.snd.pending| {
      var e := c.snd.pending[i.value];
      UpdateMarks(c.snd.pending, i.value, e.(resent := true, recovered := true, lastSentAt := now));
    }
  }

  lemma RecoveryMarked(key: Key, c: Conn, now: int, pos: nat, peer: End)
    requires Marked(c.snd.pending, pos, peer)
    ensures Marked(RecoveryResend(key, c, now).0.snd.pending, pos, peer)
  {
    hide RecoveryResend, Marked, NoNewMarks;
    RecoveryNoNewMarks(key, c, now);
    NoNewMarksKeep(c.snd.pending, RecoveryResend(key, c, now).0.snd.pending, pos, peer);
  }

  lemma ClearedMarked(pending: seq<Pending>, pos: nat, peer: End)
    requires Marked(pending, pos, peer)
    ensures Marked(ClearRecovered(pending), pos, peer) && Marked(ClearScoreboard(pending), pos, peer)
  {
    hide Marked, NoNewMarks;
    SameMarks(pending);
    NoNewMarksKeep(pending, ClearRecovered(pending), pos, peer);
    NoNewMarksKeep(pending, ClearScoreboard(pending), pos, peer);
  }

  lemma AdvanceMarked(key: Key, c: Conn, ack: u32, r: AckResult, now: int, pos: nat, peer: End)
    requires Marked(c.snd.pending, pos, peer)
    ensures Marked(OnAdvance(key, c, ack, r, now).0.snd.pending, pos, peer)
  {
    hide RecoveryResend, Marked, ClearRecovered, SeqLessOrEqual;
    ClearedMarked(c.snd.pending, pos, peer);
    var c1 := c.(cc := c.cc.(duplicateAcks := 0));
    RecoveryMarked(key, c1.(cc := PartialAck(c1.cc, c1.opt.sendMss, r.space)), now, pos, peer);
  }

  lemma DuplicateMarked(key: Key, c: Conn, seg: Segment, windowChanged: bool, now: int, pos: nat, peer: End)
    requires Marked(c.snd.pending, pos, peer)
    ensures Marked(OnDuplicate(key, c, seg, windowChanged, now).0.snd.pending, pos, peer)
  {
    hide RecoveryResend, Marked, ClearRecovered, IsDuplicateAck, Flight;
    ClearedMarked(c.snd.pending, pos, peer);
    var c1 := c.(cc := c.cc.(duplicateAcks := c.cc.duplicateAcks + 1));
    RecoveryMarked(key, c1.(cc := Inflate(c1.cc, c1.opt.sendMss)), now, pos, peer);
    RecoveryMarked(key,
                   c1.(cc := EnterRecovery(c1.cc, c1.opt.sendMss, Flight(c1.snd), c1.snd.nxt),
                       snd := c1.snd.(pending := ClearRecovered(c1.snd.pending))),
                   now, pos, peer);
  }

  lemma RetiredMarked(c: Conn, v: View, ack: u32, now: int, ackPos: nat, peer: End)
    requires SendValid(c.snd, v) && ack == At(v.ledger.isn, ackPos) && ackPos <= v.nxt && v.una <= ackPos + MAX_AGE
    requires Marked(c.snd.pending, v.una, peer)
    ensures Marked(RetireAcknowledged(c, ack, now).0.snd.pending, Max(v.una, ackPos), peer)
  {
    hide Tiles, At, HistoryBelow, QueueSplit, Retire, Marked;
    FlightBound(c.snd, v);
    ComparePositions(v.ledger.isn, ackPos, v.una);
    if SeqGreater(ack, c.snd.una) {
      RetireMarked(c.snd.pending, v.una, v.nxt, v.ledger, ackPos, peer);
      var r := Retire(c.snd.pending, ack);
      if r.keep {
        UpdateMarks(r.pending, 0, r.pending[0].(sampled := true));
        NoNewMarksKeep(r.pending, r.pending[0 := r.pending[0].(sampled := true)], ackPos, peer);
      }
    }
  }

  /** The ACK and the report of one honest segment. */
  lemma ProcessAckMarked(key: Key, c: Conn, v: View, seg: Segment, now: int, pos: nat, ackPos: nat, peer: End)
    requires SyncValid(c, v) && AckAcceptable(c, seg) && Marked(c.snd.pending, v.una, peer)
    requires Reading(seg, pos, ackPos, peer) && Recent(pos, ackPos, v)
    requires peer.v.peerIsn == v.ledger.isn && peer.v.rcv <= v.nxt
    ensures var c' := ProcessAck(key, c, seg, BlocksOf(seg), now).0;
            Marked(c'.snd.pending, Max(v.una, ackPos), peer)
  {
    hide SendValid, RetireAcknowledged, MarkSacked, UpdateSendWindow, OnAdvance, OnDuplicate, Marked, ReportTrue,
         BlocksOf, CoreValid, NoStall, StateOf, At, LocalFinAcked, SeqLessOrEqual, AckView, ParseOptions;
    CoreHasSend(c, v);
    CoreHasRtt(c, v);
    var a := Max(v.una, ackPos);
    var (c1, r) := RetireAcknowledged(c, seg.ackno, now);
    var v1 := AckView(c, v, seg.ackno, now);
    RetiredMarked(c, v, seg.ackno, now, ackPos, peer);
    RetireKeepsValid(c, v, seg.ackno, now);
    AckMoves(c, v, seg.ackno, now, ackPos);
    AckViewFrame(c, v, seg.ackno, now);
    SackedMarked(c1, v1, seg, BlocksOf(seg), ackPos, peer);
    var c2 := ApplySack(c1, seg.ackno, BlocksOf(seg));
    var c3 := c2.(snd := UpdateSendWindow(c2.snd, c2.opt, seg));
    assert c3.snd.pending == c2.snd.pending by { WindowKeepsQueue(c2.snd, c2.opt, seg); }
    AdvanceMarked(key, c3, seg.ackno, r, now, a, peer);
    DuplicateMarked(key, c3, seg, c3.snd.wnd != c2.snd.wnd, now, a, peer);
    NothingMarkedIn(a, peer);
  }

  lemma CoreHasRtt(c: Conn, v: View)
    requires CoreValid(c, v)
    ensures RttEstimator.Valid(c.rtt)
  {
  }

  lemma WindowKeepsQueue(s: SendState, opt: Negotiated, seg: Segment)
    ensures UpdateSendWindow(s, opt, seg).pending == s.pending
  {
  }

  lemma NothingMarkedIn(pos: nat, peer: End)
    ensures Marked([], pos, peer)
  {
  }

  lemma SackedMarked(c: Conn, v: View, seg: Segment, blocks: seq<SackBlock>, ackPos: nat, peer: End)
    requires SendValid(c.snd, v) && ackPos <= v.una <= ackPos + MAX_AGE && Marked(c.snd.pending, v.una, peer)
    requires seg.ackno == At(v.ledger.isn, ackPos)
    requires peer.Opened? && peer.v.peerIsn == v.ledger.isn && ReportTrue(blocks, ackPos, peer.c.rcv, peer.v)
    ensures Marked(ApplySack(c, seg.ackno, blocks).snd.pending, v.una, peer)
  {
    hide Tiles, MarkSacked, Marked, ReportTrue, At;
    FlightBound(c.snd, v);
    SackMarked(c.snd.pending, v.una, v.nxt, v.ledger, ackPos, c.snd.nxt, blocks, peer);
  }

  lemma {:induction false} EntriesUnmarked(segs: seq<Segment>, now: int, rto: int)
    ensures forall q | q in Entries(segs, now, rto) :: !q.sacked
    decreases |segs|
  {
    if segs != [] {
      EntriesUnmarked(segs[1..], now, rto);
    }
  }

  lemma FinMarked(key: Key, c: Conn, now: int, pos: nat, peer: End)
    requires Marked(c.snd.pending, pos, peer)
    ensures Marked(MaybeSequenceFin(key, c, now).0.snd.pending, pos, peer)
  {
    hide Marked, MakeFin, AvailableSendWindow;
    var entry := NewPending(c.snd.nxt, MakeFin(key, c).flags, [], now, c.rtt.rto).(isFin := true);
    AppendMarked(c.snd.pending, [entry], pos, peer);
  }

  lemma ScheduleMarked(key: Key, c: Conn, now: int, pos: nat, peer: End)
    requires Marked(c.snd.pending, pos, peer)
    ensures Marked(Schedule(key, c, now).0.snd.pending, pos, peer)
  {
    hide Marked, Segments, Entries, ToSend, MaybeSequenceFin, PersistEligible;
    var n := ToSend(c);
    ToSendBound(c);
    var segs := Segments(key, c, c.snd.nxt, c.snd.unsent[..n], n == |c.snd.unsent|);
    EntriesUnmarked(segs, now, c.rtt.rto);
    AppendMarked(c.snd.pending, Entries(segs, now, c.rtt.rto), pos, peer);
    FinMarked(key, ScheduleData(key, c, now).0, now, pos, peer);
  }

  lemma AfterAckMarked(key: Key, c: Conn, seg: Segment, fast: Option<Segment>, now: int, pos: nat, peer: End)
    requires Marked(c.snd.pending, pos, peer)
    ensures Marked(AfterAck(key, c, seg, fast, now).0.snd.pending, pos, peer)
  {
    hide Marked, AfterAck, Receive, Schedule, MakePureAck, Absorbs, PersistEligible;
    AfterAckCases(key, c, seg, fast, now);
    var c0 := if Absorbs(c, seg) then Receive(c, seg, now).conn else c;
    NothingMarkedIn(pos, peer);
    ReceiveQueue(c, seg, now);
    ScheduleMarked(key, c0, now, pos, peer);
  }

  lemma ReceiveQueue(c: Conn, seg: Segment, now: int)
    ensures var c' := Receive(c, seg, now).conn; c'.snd.pending == c.snd.pending || c'.snd.pending == []
  {
    hide Released, Receive;
    ReceiveCases(c, seg, now);
  }

  lemma PollMarked(key: Key, c: Conn, now: int, pos: nat, peer: End)
    requires Marked(c.snd.pending, pos, peer)
    ensures Marked(PollRetransmission(key, c, now).0.snd.pending, pos, peer)
  {
    hide Marked, TimeoutSegment, Collapse, Pending.Deadline, ClearScoreboard, Flight, RttEstimator.BackOff;
    if c.snd.pending != [] {
      ClearedMarked(c.snd.pending, pos, peer);
      var data := c.snd.pending[0].IsData();
      var pending := if data then ClearScoreboard(c.snd.pending) else c.snd.pending;
      UpdateMarks(pending, 0, Expired(pending[0], now));
      NoNewMarksKeep(pending, pending[0 := Expired(pending[0], now)], pos, peer);
    }
  }

  /** Calls and polls add no mark. */
  lemma LocalMarked(key: Key, c: Conn, v: View, e: Event, now: int, peer: End)
    requires ConnValid(c, v) && !e.Deliver? && Marked(c.snd.pending, v.una, peer)
    ensures Marked(Step(key, c, e, now).0.snd.pending, StepView(key, c, v, e, now).una, peer)
  {
    hide ConnValid, Marked, Schedule, SendView, CloseView, PollView, PollRetransmission, MaybeSequenceFin, SendCheck,
         PersistEligible, MakeSegment;
    LocalIsQuiet(key, c, v, e, now);
    match e {
      case Write(payload) => ScheduleMarked(key, Enqueue(c, payload), now, v.una, peer);
      case Close => FinMarked(key, Requested(c), now, v.una, peer);
      case PollRetransmissions => PollMarked(key, c, now, v.una, peer);
      case PollProbes =>
    }
  }

  lemma SynchronizedMarked(key: Key, c: Conn, v: View, seg: Segment, now: int, pos: nat, ackPos: nat, peer: End)
    requires SyncValid(c, v) && c.state != TimeWait && Timely(c.rcv, c.opt, seg) && Marked(c.snd.pending, v.una, peer)
    requires Reading(seg, pos, ackPos, peer) && Recent(pos, ackPos, v)
    requires peer.v.peerKnown ==> peer.v.peerIsn == v.ledger.isn && peer.v.rcv <= v.nxt
    ensures Marked(HandleSynchronized(key, c, seg, now).0.snd.pending, SynchronizedView(key, c, v, seg, now).una, peer)
  {
    hide Marked, SyncValid, CoreValid, StepState, ProcessAck, AfterAck, AfterAckView, ProcessAckView, FastOk,
         ParseOptions, MakePureAck, Timely, SeqLessOrEqual, ReportTrue, Extends, AllGenuine, EpisodeKept;
    if AckAcceptable(c, seg) {
      var blocks := ParseOptions(seg.options).value.sackBlocks;
      var (c1, fast) := ProcessAck(key, c, seg, blocks, now);
      var v1 := ProcessAckView(c, v, seg, blocks, now);
      ProcessAckKeepsValid(key, c, v, seg, blocks, now);
      AckIsExact(c, v, seg, blocks, now, ackPos) by { SyncIsCore(c, v); CoreHasSend(c, v); }
      ProcessAckMarked(key, c, v, seg, now, pos, ackPos, peer);
      FastIsResend(fast, c.rcv.nxt, c.cc.inRecovery, v.ledger.episode, v1);
      AfterAckKeepsValid(key, c1, v1, seg, fast, now);
      AfterAckMarked(key, c1, seg, fast, now, v1.una, peer);
    }
  }

  lemma OpeningMarked(key: Key, c: Conn, v: View, seg: Segment, now: int, peer: End)
    requires (SynSentValid(c, v) || SynReceivedValid(c, v)) && Marked(c.snd.pending, v.una, peer)
    ensures Marked(Handle(key, c, seg, now).0.snd.pending, HandleView(key, c, v, seg, now).una, peer)
  {
    hide Marked, ParseOptions, RttEstimator.Valid, OptValid, RetireAcknowledged, MakeSynAck, At, SampledLedger,
         DecodePeerWindow, InitialCwnd, MakeSegment;
    var e := c.snd.pending[0];
    NothingMarkedIn(1, peer);
    UpdateMarks(c.snd.pending, 0, e.(lastSentAt := now));
    NoNewMarksKeep(c.snd.pending, c.snd.pending[0 := e.(lastSentAt := now)], v.una, peer);
    if c.state == SynSent && CompletesConnect(c, seg) {
      var opt := Negotiate(ParseOptions(seg.options).value);
      var c1 := c.(remoteIsn := seg.seqno, remoteKnown := true, rcv := c.rcv.(nxt := At(seg.seqno, 1)),
                   opt := opt, cc := c.cc.(cwnd := InitialCwnd(opt.sendMss)), state := Established);
      RetireSyn(c1, true, v.ledger, now);
    } else if c.state == SynReceived {
      RetireSyn(c.(state := Established, rcv := c.rcv.(nxt := At(c.remoteIsn, 1)),
                   snd := c.snd.(una := c.localIsn, nxt := At(c.localIsn, 1))), false, v.ledger, now);
    }
  }

  lemma ResetMarked(key: Key, c: Conn, v: View, seg: Segment, now: int)
    requires ConnValid(c, v) && seg.flags.rst
    ensures Handle(key, c, seg, now).0.snd == c.snd && HandleView(key, c, v, seg, now).una == v.una
  {
    hide SyncValid, OpeningValid, ParseOptions;
  }

  /** The segment is read as it was sent, and it is recent. */
  ghost predicate ReadAsSent(seg: Segment, me: End, peer: End) {
    me.Live() && !seg.flags.rst ==>
      exists pos: nat, ackPos: nat :: Reading(seg, pos, ackPos, peer) && Recent(pos, ackPos, me.v)
  }

  lemma ArrivalMarked(key: Key, me: End, peer: End, fromMe: set<Segment>, fromPeer: set<Segment>, seg: Segment,
                      now: int)
    requires Joint(me, peer, fromMe, fromPeer) && me.Live() && Marked(me.c.snd.pending, me.v.una, peer)
    requires TimelyEvent(me.c, Deliver(seg)) && ReadAsSent(seg, me, peer)
    ensures var me' := StepEnd(key, me, Deliver(seg), now).0; Marked(me'.c.snd.pending, me'.v.una, peer)
  {
    hide SyncValid, SynSentValid, SynReceivedValid, Marked, Reading, Recent, Follows, HandleSynchronized, HandleSynSent,
         HandleSynReceived, SynSentView, SynReceivedView, SynchronizedView, Timely, NetValid;
    if seg.flags.rst {
      ResetMarked(key, me.c, me.v, seg, now);
    } else if me.c.state == SynSent || me.c.state == SynReceived {
      OpeningMarked(key, me.c, me.v, seg, now, peer);
    } else if me.c.state != TimeWait {
      var pos: nat, ackPos: nat :| Reading(seg, pos, ackPos, peer) && Recent(pos, ackPos, me.v);
      ReaderIsOpen(seg, pos, ackPos, peer);
      FollowsBound(peer.c.rcv, peer.v, me.v);
      SynchronizedMarked(key, me.c, me.v, seg, now, pos, ackPos, peer);
    }
  }

  lemma ReaderIsOpen(seg: Segment, pos: nat, ackPos: nat, peer: End)
    requires Reading(seg, pos, ackPos, peer)
    ensures peer.Opened?
  {
  }

  // ---------------------------------------------------------------- the joint invariant

  ghost predicate Agree(me: End, peer: End, fromMe: set<Segment>) {
    NetHonest(fromMe, me) && (me.Live() ==> Marked(me.c.snd.pending, me.v.una, peer))
  }

  ghost predicate SackJoint(me: End, peer: End, fromMe: set<Segment>, fromPeer: set<Segment>) {
    Joint(me, peer, fromMe, fromPeer) && Agree(me, peer, fromMe) && Agree(peer, me, fromPeer)
  }

  ghost predicate PermittedReading(a: Action, me: End, peer: End, fromPeer: set<Segment>) {
    Permitted(a, me, peer, fromPeer) && (a.Arrive? ==> ReadAsSent(a.segment, me, peer))
  }

  lemma EventKeepsAll(key: Key, me: End, e: Event, now: int)
    requires me.Live() && ConnValid(me.c, me.v) && TimelyEvent(me.c, e)
    ensures Keeps(me, StepEnd(key, me, e, now).0)
  {
    hide ConnValid, TimelyEvent, Step, StepView, HasAt;
    forall p: nat | Has(me, p)
      ensures Has(StepEnd(key, me, e, now).0, p)
    {
      StepKeepsHas(key, me.c, me.v, e, now, p);
    }
  }

  lemma EventAgrees(key: Key, me: End, peer: End, fromMe: set<Segment>, fromPeer: set<Segment>, e: Event, now: int)
    requires SackJoint(me, peer, fromMe, fromPeer) && me.Live()
    requires if e.Deliver? then PermittedReading(Arrive(e.segment), me, peer, fromPeer)
             else PermittedReading(Local(e), me, peer, fromPeer)
    ensures var (me', sent) := StepEnd(key, me, e, now);
            Agree(me', peer, Added(fromMe, sent)) && Agree(peer, me', fromPeer)
  {
    hide ConnValid, Follows, Step, StepView, IsGenuine, TimelyEvent, Marked, Keeps, ReadAsSent, Link, Honest, Extends,
         NotTooOld;
    EventAdvances(key, me, peer, fromMe, fromPeer, e, now);
    StepKeepsValid(key, me.c, me.v, e, now);
    var (me', sent) := StepEnd(key, me, e, now);
    EventKeepsAll(key, me, e, now);
    StepIsHonest(key, me, e, now);
    NetStaysHonest(fromMe, sent, me, me');
    if e.Deliver? {
      ArrivalMarked(key, me, peer, fromMe, fromPeer, e.segment, now);
    } else {
      LocalMarked(key, me.c, me.v, e, now, peer);
    }
    if peer.Live() {
      MarkedStays(peer.c.snd.pending, peer.v.una, me, me');
    }
  }

  lemma OpenAgrees(key: Key, me: End, peer: End, fromMe: set<Segment>, fromPeer: set<Segment>, a: Action, now: int)
    requires SackJoint(me, peer, fromMe, fromPeer) && Permitted(a, me, peer, fromPeer) && (a.Open? || a.Accept?)
    ensures var (me', sent) := Move(key, me, a, now);
            Agree(me', peer, Added(fromMe, sent)) && Agree(peer, me', fromPeer)
  {
    hide ConnValid, Connect, Listen, ParseOptions, Honest, Link, Marked, EndValid, BlocksOf, NetValid, IsGenuine;
    var (me', sent) := Move(key, me, a, now);
    match a {
      case Open(isn) =>
        ConnectValid(key, isn, now);
        OpenedUnmarked(key, isn, Segment(0, 0, 0, 0, NO_FLAGS, 0, 0, [], []), NO_OPTIONS, now, peer);
      case Accept(isn, syn) =>
        ListenValid(key, isn, syn, now);
        OpenedUnmarked(key, isn, syn, ParseOptions(syn.options).value, now, peer);
    }
    BlocklessIsHonest(sent[0], me');
    NetStaysHonest(fromMe, sent, me, me');
    if peer.Live() {
      MarkedStays(peer.c.snd.pending, peer.v.una, me, me');
    }
  }

  lemma OpenedUnmarked(key: Key, isn: u32, syn: Segment, o: ParsedOptions, now: int, peer: End)
    ensures var (c, s) := Connect(key, isn, now); Marked(c.snd.pending, 0, peer) && BlocksOf(s) == []
    ensures var (c, s) := Listen(key, isn, syn, o, now); Marked(c.snd.pending, 0, peer) && BlocksOf(s) == []
  {
    hide BlocksOf, AdvertisedWindow, BuildSynAckOptions, BuildActiveSynOptions, InitialCwnd;
    var c := NewConn(SynSent, isn).(remoteKnown := false);
    OpenersHaveNoBlocks(key, c.(snd := c.snd.(una := isn, nxt := At(isn, 1))));
    var d := NewConn(SynReceived, isn);
    var opt := Negotiate(o);
    OpenersHaveNoBlocks(key, d.(remoteIsn := syn.seqno, opt := opt, cc := d.cc.(cwnd := InitialCwnd(opt.sendMss))));
  }

  /** Every action at one endpoint keeps the agreement. */
  lemma MoveAgrees(key: Key, me: End, peer: End, fromMe: set<Segment>, fromPeer: set<Segment>, a: Action, now: int)
    requires SackJoint(me, peer, fromMe, fromPeer) && PermittedReading(a, me, peer, fromPeer)
    ensures var (me', sent) := Move(key, me, a, now); SackJoint(me', peer, Added(fromMe, sent), fromPeer)
  {
    hide Joint, StepEnd, ReadAsSent, NotTooOld, Honest, Marked, Connect, Listen, ParseOptions;
    MoveKeeps(key, me, peer, fromMe, fromPeer, a, now);
    if a.Open? || a.Accept? {
      OpenAgrees(key, me, peer, fromMe, fromPeer, a, now);
    } else if a.Local? {
      EventAgrees(key, me, peer, fromMe, fromPeer, a.event, now);
    } else if me.Live() {
      EventAgrees(key, me, peer, fromMe, fromPeer, Deliver(a.segment), now);
    } else {
      assert ClosedPortReset(a.segment).flags.rst;
    }
  }

  ghost predicate LegalReading(w: World, t: Turn) {
    if t.atA then PermittedReading(t.action, w.a, w.b, w.fromB) else PermittedReading(t.action, w.b, w.a, w.fromA)
  }

  ghost predicate ReadPlay(keyA: Key, keyB: Key, w: World, turns: seq<Turn>)
    decreases |turns|
  {
    turns == [] || (LegalReading(w, turns[0])
                    && ReadPlay(keyA, keyB, TwoEndpoints.Next(keyA, keyB, w, turns[0]), turns[1..]))
  }

  lemma {:induction false} PlayAgrees(keyA: Key, keyB: Key, w: World, turns: seq<Turn>)
    requires SackJoint(w.a, w.b, w.fromA, w.fromB) && ReadPlay(keyA, keyB, w, turns)
    ensures var w' := Play(keyA, keyB, w, turns); SackJoint(w'.a, w'.b, w'.fromA, w'.fromB)
    decreases |turns|
  {
    hide Move, EndValid, NetValid, Link, Agree, PermittedReading;
    if turns != [] {
      var t := turns[0];
      if t.atA {
        MoveAgrees(keyA, w.a, w.b, w.fromA, w.fromB, t.action, t.now);
      } else {
        MoveAgrees(keyB, w.b, w.a, w.fromB, w.fromA, t.action, t.now);
      }
      PlayAgrees(keyA, keyB, TwoEndpoints.Next(keyA, keyB, w, t), turns[1..]);
    }
  }

  /** Every position of every entry marked as SACKed at `me` is one that `peer` has. */
  ghost predicate MarksAreHad(me: End, peer: End) {
    me.Live() ==>
      forall i: nat, p: nat |
        i < |me.c.snd.pending| && me.c.snd.pending[i].sacked
        && PositionOf(me.c.snd.pending, me.v.una, i) <= p
           < PositionOf(me.c.snd.pending, me.v.una, i) + me.c.snd.pending[i].Length() ::
        Has(peer, p)
  }

  lemma {:induction false} MarkedMeans(pending: seq<Pending>, pos: nat, peer: End, i: nat)
    requires Marked(pending, pos, peer) && i < |pending| && pending[i].sacked
    ensures HasAll(peer, PositionOf(pending, pos, i), PositionOf(pending, pos, i) + pending[i].Length())
    decreases |pending|
  {
    hide HasAll;
    if i > 0 {
      MarkedMeans(pending[1..], pos + pending[0].Length(), peer, i - 1);
    }
  }

  lemma AgreeMeans(me: End, peer: End, fromMe: set<Segment>)
    requires Agree(me, peer, fromMe)
    ensures MarksAreHad(me, peer) && NetHonest(fromMe, me)
  {
    hide Marked, Has, NetHonest, PositionOf, Pending.Length;
    if me.Live() {
      forall i: nat, p: nat |
        i < |me.c.snd.pending| && me.c.snd.pending[i].sacked
        && PositionOf(me.c.snd.pending, me.v.una, i) <= p
           < PositionOf(me.c.snd.pending, me.v.una, i) + me.c.snd.pending[i].Length()
        ensures Has(peer, p)
      {
        MarkedMeans(me.c.snd.pending, me.v.una, peer, i);
      }
    }
  }

  lemma StartAgrees()
    ensures SackJoint(Unopened, Unopened, {}, {})
  {
  }

  /**
   The scoreboard tells the truth, after any number of actions in any order, with any loss,
   duplication and reordering: what one endpoint has marked as SACKed the other has delivered or
   holds, so no byte that recovery skips is missing.  Every segment ever sent has a reading, so
   all that is asked of an arriving one is that its reading is recent.
   */
  lemma ScoreboardIsTrue(keyA: Key, keyB: Key, turns: seq<Turn>)
    requires ReadPlay(keyA, keyB, START, turns)
    ensures var w := Play(keyA, keyB, START, turns);
            MarksAreHad(w.a, w.b) && MarksAreHad(w.b, w.a) && NetHonest(w.fromA, w.a) && NetHonest(w.fromB, w.b)
  {
    hide SackJoint, Agree, Move, Play, ReadPlay, MarksAreHad, NetHonest;
    StartAgrees();
    PlayAgrees(keyA, keyB, START, turns);
    var w := Play(keyA, keyB, START, turns);
    assert Agree(w.a, w.b, w.fromA) && Agree(w.b, w.a, w.fromB) by { JointAgrees(w); }
    AgreeMeans(w.a, w.b, w.fromA);
    AgreeMeans(w.b, w.a, w.fromB);
  }

  lemma JointAgrees(w: World)
    requires SackJoint(w.a, w.b, w.fromA, w.fromB)
    ensures Agree(w.a, w.b, w.fromA) && Agree(w.b, w.a, w.fromB)
  {
  }
}
