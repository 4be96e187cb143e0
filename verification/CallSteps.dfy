/** The application's calls and the timer polls of one connection keep its invariant. */
module CallSteps {
  import opened Primitives
  import opened SequenceSpace
  import opened TcpOptions
  import opened TcpSegments
  import opened TcpTypes
  import opened Receiving
  import opened RttEstimator
  import opened CongestionControl
  import opened Sending
  import opened TcpEngine
  import opened PendingQueue
  import opened ReceiveInvariant
  import opened ConnInvariant
  import opened AckPhase
  import opened SendPhase
  import opened ConnSteps

  // ---------------------------------------------------------------- makeOutgoingData

  function Enqueue(c: Conn, payload: seq<u8>): Conn { c.(snd := c.snd.(unsent := c.snd.unsent + payload)) }

  function EnqueueView(v: View, payload: seq<u8>): View {
    v.(ledger := v.ledger.(stream := v.ledger.stream + payload))
  }

  /** An accepted payload extends the stream and stays within the send buffer. */
  lemma EnqueueKeepsSend(s: SendState, v: View, payload: seq<u8>)
    requires SendValid(s, v) && !v.finSent && OwnedBytes(s) + |payload| <= SEND_BUFFER_CAPACITY
    ensures SendValid(s.(unsent := s.unsent + payload), EnqueueView(v, payload))
  {
    hide Tiles, OwnedBytes, At;
    FlightBound(s, v);
    TilesGrow(s.pending, v.una, v.nxt, v.ledger, payload);
    assert s.unsent + payload == (v.ledger.stream + payload)[v.nxt - 1..];
  }

  lemma SendableIsOpen(c: Conn, v: View)
    requires SyncValid(c, v) && c.Sendable()
    ensures !v.finSent && !v.passive && c.timeWait.None? && c.state == StateOf(v) && CoreValid(c, v)
  {
  }

  lemma EnqueueKeepsCore(c: Conn, v: View, payload: seq<u8>)
    requires CoreValid(c, v) && !v.finSent && OwnedBytes(c.snd) + |payload| <= SEND_BUFFER_CAPACITY
    ensures CoreValid(Enqueue(c, payload), EnqueueView(v, payload)) && StateOf(EnqueueView(v, payload)) == StateOf(v)
  {
    hide SendValid, BufferValid, OptValid, Bounded, RttEstimator.Valid, OwnedBytes, At;
    EnqueueKeepsSend(c.snd, v, payload);
  }

  function SendView(key: Key, c: Conn, v: View, payload: seq<u8>, now: int): View {
    if SendCheck(c, payload).Some? then v else ScheduleView(key, Enqueue(c, payload), EnqueueView(v, payload), now)
  }

  /** All of the payload or none of it: an error leaves the connection as it was. */
  lemma SendKeepsValid(key: Key, c: Conn, v: View, payload: seq<u8>, now: int)
    requires ConnValid(c, v)
    ensures var (c', r) := MakeOutgoingData(key, c, payload, now);
            var v' := SendView(key, c, v, payload, now);
            && ConnValid(c', v') && !c'.removal && Extends(v, v')
            && v'.ledger.stream == v.ledger.stream + (if r.Ok? then payload else [])
            && Quiet(c, c', v, v')
            && (r.Err? ==> c' == c) && (r.Ok? ==> AllGenuine(r.value, v'))
  {
    hide Schedule, ScheduleView, CoreValid, StateOf, OwnedBytes, PersistEligible, IsGenuine, At;
    if SendCheck(c, payload).None? {
      SendableIsOpen(c, v);
      EnqueueKeepsCore(c, v, payload);
      var c1, v1 := Enqueue(c, payload), EnqueueView(v, payload);
      ScheduleKeepsValid(key, c1, v1, now);
      var (c', segs) := Schedule(key, c1, now);
      var v' := ScheduleView(key, c1, v1, now);
      CoreKnowsPeer(c1, v1);
      SendsAreGenuine(segs, v.nxt, v');
    }
  }

  lemma CoreKnowsPeer(c: Conn, v: View)
    requires CoreValid(c, v)
    ensures v.peerKnown && 1 <= v.rcv && c.rcv.nxt == At(v.peerIsn, v.rcv)
  {
  }

  // ---------------------------------------------------------------- beginClose

  function Requested(c: Conn): Conn { c.(snd := c.snd.(closeRequested := true)) }

  function CloseView(c: Conn, v: View): View { if c.Sendable() then FinView(Requested(c), v) else v }

  lemma RequestKeepsCore(c: Conn, v: View)
    requires CoreValid(c, v)
    ensures CoreValid(Requested(c), v) && SendValid(Requested(c).snd, v)
  {
    hide Tiles, BufferValid, OptValid, Bounded, RttEstimator.Valid, At;
  }

  /** Closing only ever adds the FIN, after every accepted byte; repeating the call changes nothing. */
  lemma CloseKeepsValid(key: Key, c: Conn, v: View, now: int)
    requires ConnValid(c, v)
    ensures var (c', r) := BeginClose(key, c, now);
            var v' := CloseView(c, v);
            && ConnValid(c', v') && !c'.removal && Extends(v, v')
            && v'.ledger.stream == v.ledger.stream && Quiet(c, c', v, v')
            && (r.accepted <==> c.Sendable()) && (r.fin.Some? <==> v'.finSent && !v.finSent)
            && (r.fin.Some? ==> IsGenuine(r.fin.value, v'))
  {
    hide SendValid, MaybeSequenceFin, SequencesFin, UpdatePersist, PersistEligible, StateOf, BufferValid, OptValid,
         Bounded, RttEstimator.Valid, At, IsGenuine;
    if c.Sendable() {
      SendableIsOpen(c, v);
      var c1 := Requested(c);
      RequestKeepsCore(c, v);
      FinKeepsValid(key, c1, v, now);
      FinFrame(key, c1, now);
      var (c2, fin) := MaybeSequenceFin(key, c1, now);
      PersistKeepsRange(c2, now);
      var c', v' := BeginClose(key, c, now).0, CloseView(c, v);
      CloseStall(c, c2, key, now);
      StateIsSynchronized(v');
      FinNotYetAcked(v, v');
      if SequencesFin(c1) {
        FinIsGenuine(key, c1, v, v');
      }
    }
  }

  lemma FinNotYetAcked(v: View, v': View)
    requires !v.finSent && (v' == v || !v'.FinAcked())
    ensures !v'.FinAcked()
  {
  }

  lemma CloseStall(c: Conn, c2: Conn, key: Key, now: int)
    requires NoStall(c) && c2 == MaybeSequenceFin(key, Requested(c), now).0
    ensures c2.snd.unsent != [] && c2.snd.pending == [] ==> c2.snd.wnd == 0
  {
    hide PersistEligible, MakeFin;
  }

  lemma FinIsGenuine(key: Key, c: Conn, v: View, v': View)
    requires CoreValid(c, v) && !v.finSent && v.nxt == 1 + |v.ledger.stream|
    requires v' == v.(nxt := v.nxt + 1, finSent := true, passive := v'.passive)
    ensures IsGenuine(MakeFin(key, c), v')
  {
    hide AdvertisedWindow, SendValid, BufferValid, OptValid, Bounded, RttEstimator.Valid;
    SendOrder(c.snd, v);
    assert Genuine(MakeFin(key, c), v.nxt, v.rcv, v');
  }

  // ---------------------------------------------------------------- pollRetransmissions

  function ResendView(c: Conn, v: View): View
    requires c.snd.pending != []
  {
    var e := c.snd.pending[0];
    var l := if e.IsData() then v.ledger.(episode := {}) else v.ledger;
    v.(ledger := l.(resent := l.resent + {v.una + e.Length()}))
  }

  lemma BackOffRanged(interval: int)
    requires Ranged(interval)
    ensures Ranged(BackOff(interval)) && interval <= BackOff(interval)
  {
  }

  lemma ExpiredEntry(e: Pending, pos: nat, l: Ledger, now: int)
    requires ContentAt(e, pos, l.isn, l.stream) && MarksAt(e, pos, l) && e.timeouts < MAX_RETRANSMITS
    ensures var e' := Expired(e, now);
            ContentAt(e', pos, l.isn, l.stream) && MarksAt(e', pos, l) && e'.resent && e'.Length() == e.Length()
  {
    BackOffRanged(e.interval);
  }

  /** The queue after a timeout. */
  lemma ResendKeepsSend(key: Key, c: Conn, v: View, now: int)
    requires SendValid(c.snd, v) && c.snd.pending != [] && c.snd.pending[0].timeouts < MAX_RETRANSMITS
    ensures SendValid(ResendOldest(key, c, now).0.snd, ResendView(c, v))
  {
    hide ContentAt, MarksAt, Expired, At, Pending.Length, TimeoutSegment, Collapse, Tiles;
    var data := c.snd.pending[0].IsData();
    var c1 := if data then CollapseOnTimeout(c) else c;
    var v1 := if data then OverView(v) else v;
    if data {
      ClearScoreboardSame(c.snd.pending);
      EpisodeOver(c.snd, v, ClearScoreboard(c.snd.pending));
    }
    SendOrder(c.snd, v);
    EntryOf(c.snd.pending, v.una, v.nxt, v.ledger, 0);
    HeadMarks(c.snd.pending, c1.snd.pending);
    ResendQueue(c1.snd, v1, now);
  }

  lemma HeadMarks(pending: seq<Pending>, cleared: seq<Pending>)
    requires pending != [] && (cleared == pending || cleared == ClearScoreboard(pending))
    ensures cleared != [] && cleared[0].timeouts == pending[0].timeouts && cleared[0].Length() == pending[0].Length()
  {
  }

  lemma ResendQueue(s: SendState, v: View, now: int)
    requires SendValid(s, v) && s.pending != [] && s.pending[0].timeouts < MAX_RETRANSMITS
    ensures SendValid(s.(pending := s.pending[0 := Expired(s.pending[0], now)]),
                      v.(ledger := v.ledger.(resent := v.ledger.resent + {v.una + s.pending[0].Length()})))
  {
    hide ContentAt, MarksAt, Expired, At, Pending.Length, Tiles;
    var e := s.pending[0];
    EntryOf(s.pending, v.una, v.nxt, v.ledger, 0);
    assert PositionOf(s.pending, v.una, 0) == v.una;
    ExpiredEntry(e, v.una, v.ledger, now);
    TilesExpired(s.pending, v.una, v.nxt, v.ledger, Expired(e, now));
  }

  lemma ResendFrame(key: Key, c: Conn, now: int)
    requires c.snd.pending != []
    ensures var c' := ResendOldest(key, c, now).0;
            && c' == c.(snd := c.snd.(pending := c'.snd.pending), rtt := c.rtt.(rto := c'.rtt.rto), cc := c'.cc)
            && c'.rtt.rto == Max(c.rtt.rto, BackOff(c.snd.pending[0].interval)) && c'.snd.pending != []
            && c'.cc == (if c.snd.pending[0].IsData() then Collapse(c.cc, c.opt.sendMss, Flight(c.snd)) else c.cc)
  {
    hide TimeoutSegment, Collapse, BackOff;
  }

  lemma ResendKeepsCore(key: Key, c: Conn, v: View, now: int)
    requires CoreValid(c, v) && c.snd.pending != [] && c.snd.pending[0].timeouts < MAX_RETRANSMITS
    ensures CoreValid(ResendOldest(key, c, now).0, ResendView(c, v))
  {
    hide SendValid, BufferValid, OptValid, Bounded, Collapse, ResendOldest, BackOff, At, Pending.Length, Flight;
    ResendKeepsSend(key, c, v, now);
    ResendFrame(key, c, now);
    CollapseBounded(c.cc, c.opt.sendMss, Flight(c.snd));
    HeadInterval(c.snd, v);
    BackOffRanged(c.snd.pending[0].interval);
  }

  lemma HeadInterval(s: SendState, v: View)
    requires SendValid(s, v) && s.pending != []
    ensures Ranged(s.pending[0].interval) && s.pending[0].timeouts <= MAX_RETRANSMITS
    ensures ContentAt(s.pending[0], v.una, v.ledger.isn, v.ledger.stream) && v.una + s.pending[0].Length() <= v.nxt
  {
    EntryOf(s.pending, v.una, v.nxt, v.ledger, 0);
  }

  lemma CollapseBounded(cc: Congestion, smss: nat, flight: nat)
    requires Bounded(cc, smss)
    ensures Bounded(Collapse(cc, smss, flight), smss) && !Collapse(cc, smss, flight).inRecovery
  {
    RespondKeepsBounds(cc, smss, Response.Timeout(flight));
  }

  /** The resent segment is the entry's own range again. */
  lemma TimeoutIsGenuine(key: Key, c: Conn, v: View, c1: Conn, v': View)
    requires CoreValid(c, v) && c.snd.pending != [] && c1.snd.pending != [] && c1.rcv == c.rcv
    requires c1.snd.pending[0] == c.snd.pending[0].(sacked := false, recovered := false)
             || c1.snd.pending[0] == c.snd.pending[0]
    requires v' == v.(ledger := v.ledger.(resent := v'.ledger.resent, episode := v'.ledger.episode))
    ensures IsGenuine(TimeoutSegment(key, c1, c1.snd.pending[0]), v')
  {
    hide AdvertisedWindow, BufferValid, OptValid, Bounded, RttEstimator.Valid, BuildSynAckOptions,
         BuildActiveSynOptions, SendValid, At;
    HeadInterval(c.snd, v);
    SendFin(c.snd, v);
    assert Genuine(TimeoutSegment(key, c1, c1.snd.pending[0]), v.una, v.rcv, v');
  }

  lemma SendFin(s: SendState, v: View)
    requires SendValid(s, v)
    ensures !v.finSent ==> v.nxt <= 1 + |v.ledger.stream|
  {
  }

  function PollView(c: Conn, v: View, now: int): View {
    var deadline := RetransmissionDeadline(c);
    if deadline.None? || now < deadline.value || c.state == TimeWait || c.snd.pending == [] then v
    else if c.snd.pending[0].timeouts >= MAX_RETRANSMITS then v
    else ResendView(c, v)
  }

  predicate PollKept(c: Conn, c': Conn, v: View, v': View) {
    && (!c'.removal ==> ConnValid(c', v')) && Extends(v, v')
    && v'.ledger.stream == v.ledger.stream && v'.nxt == v.nxt && Quiet(c, c', v, v')
  }

  /** The sequence numbers a segment takes up. */
  function Consumed(seg: Segment): nat {
    |seg.payload| + (if seg.flags.syn then 1 else 0) + (if seg.flags.fin then 1 else 0)
  }

  /** The segment is the oldest range again, and the end of that range goes on record. */
  predicate OldestAgain(seg: Segment, v: View, v': View) {
    && seg.seqno == At(v.ledger.isn, v.una) && 0 < Consumed(seg)
    && v'.ledger.resent == v.ledger.resent + {v.una + Consumed(seg)}
  }

  lemma ResendKeepsSync(key: Key, c: Conn, v: View, now: int)
    requires SyncValid(c, v) && c.snd.pending != [] && c.snd.pending[0].timeouts < MAX_RETRANSMITS
    ensures var (c', seg) := ResendOldest(key, c, now);
            && PollKept(c, c', v, ResendView(c, v)) && IsGenuine(seg, ResendView(c, v))
            && OldestAgain(seg, v, ResendView(c, v))
  {
    hide CoreValid, OldestAgain, ResendOldest, Pending.Length, IsGenuine, At, Collapse, BackOff;
    ResendKeepsCore(key, c, v, now);
    ResendFrame(key, c, now);
    var c' := ResendOldest(key, c, now).0;
    ResendSegmentGenuine(key, c, v, now);
    CoreHasSend(c, v);
    ResendsOldest(key, c, v, now);
  }

  lemma ResendsOldest(key: Key, c: Conn, v: View, now: int)
    requires SendValid(c.snd, v) && c.snd.pending != []
    ensures OldestAgain(ResendOldest(key, c, now).1, v, ResendView(c, v))
  {
    hide SendValid, Collapse, Expired, AdvertisedWindow, BuildSynAckOptions, BuildActiveSynOptions, At, Flight;
    HeadInterval(c.snd, v);
  }

  lemma ResendSegmentGenuine(key: Key, c: Conn, v: View, now: int)
    requires CoreValid(c, v) && c.snd.pending != []
    ensures IsGenuine(ResendOldest(key, c, now).1, ResendView(c, v))
  {
    hide CoreValid, TimeoutSegment, IsGenuine, Expired, Collapse;
    var c1 := if c.snd.pending[0].IsData() then CollapseOnTimeout(c) else c;
    TimeoutIsGenuine(key, c, v, c1, ResendView(c, v));
  }

  /** Resends of a SYN or SYN-ACK repeat it. */
  lemma ResendKeepsOpening(key: Key, c: Conn, v: View, now: int)
    requires SynSentValid(c, v) || SynReceivedValid(c, v)
    requires c.snd.pending[0].timeouts < MAX_RETRANSMITS
    ensures var (c', seg) := ResendOldest(key, c, now);
            && PollKept(c, c', v, ResendView(c, v)) && IsGenuine(seg, ResendView(c, v))
            && OldestAgain(seg, v, ResendView(c, v))
            && seg == (if c.state == SynSent then MakeActiveSyn(key, c) else MakeSynAck(key, c))
  {
    hide BuildSynAckOptions, BuildActiveSynOptions, AdvertisedWindow, OptValid, InitialCwnd, BackOff, At;
    var (c', seg) := ResendOldest(key, c, now);
    var v' := ResendView(c, v);
    BackOffRanged(c.snd.pending[0].interval);
    AtZero(c.localIsn);
    if c.state == SynSent {
      assert Genuine(seg, 0, 0, v');
    } else {
      assert Genuine(seg, 0, 1, v');
    }
  }

  /** A poll resends the oldest range and records its end, or it leaves the history alone. */
  lemma PollKeepsValid(key: Key, c: Conn, v: View, now: int)
    requires ConnValid(c, v)
    ensures var (c', r) := PollRetransmission(key, c, now);
            var v' := PollView(c, v, now);
            && PollKept(c, c', v, v')
            && (if r.Resent? then IsGenuine(r.segment, v') && OldestAgain(r.segment, v, v') else v' == v)
  {
    hide OldestAgain, SyncValid, SynSentValid, SynReceivedValid, ResendOldest, ResendView, IsGenuine, Pending.Deadline;
    if c.state != TimeWait && c.snd.pending != [] && c.snd.pending[0].timeouts < MAX_RETRANSMITS {
      if c.state == SynSent || c.state == SynReceived {
        ResendKeepsOpening(key, c, v, now);
      } else {
        ResendKeepsSync(key, c, v, now);
      }
    }
  }

  // ---------------------------------------------------------------- pollPersistProbes

  /** A probe repeats a position that was acknowledged; nothing is sequenced by it. */
  lemma PersistKeepsValid(key: Key, c: Conn, v: View, now: int)
    requires ConnValid(c, v)
    ensures var (c', probe) := PollPersist(key, c, now);
            && ConnValid(c', v) && !c'.removal && c'.snd == c.snd && c'.rcv == c.rcv
            && (probe.Some? <==> c.persist.deadline.Some? && now >= c.persist.deadline.value)
            && (probe.Some? ==>
                  1 <= v.una == v.nxt && Genuine(probe.value, v.una - 1, v.rcv, v) && |probe.value.payload| == 1)
  {
    hide AdvertisedWindow, SendValid, BufferValid, OptValid, Bounded, RttEstimator.Valid, StateOf, At, InitialCwnd,
         SynEntry;
    var (c', probe) := PollPersist(key, c, now);
    if c.Synchronized() && probe.Some? {
      assert PersistEligible(c') <==> PersistEligible(c);
      ProbePosition(c.snd, v);
    }
  }

  lemma ProbePosition(s: SendState, v: View)
    requires SendValid(s, v) && s.nxt == s.una
    ensures 1 <= v.una == v.nxt && Sub(s.nxt, 1) == At(v.ledger.isn, v.una - 1)
  {
    FlightBound(s, v);
    AtAt(v.ledger.isn, v.una - 1, 1);
    SubOfPositions(v.ledger.isn, v.una, v.una - 1);
  }
}
