/**
 One round trip of progress.  A timeout resend that arrives is taken, it is answered or hands
 bytes to the application, and every segment the receiver sends from then on moves the sender
 forward when it arrives.
 */
module Progress {
  import opened Primitives
  import opened SequenceSpace
  import Reassembly
  import opened TcpOptions
  import opened TcpSegments
  import opened TcpTypes
  import opened Receiving
  import opened CongestionControl
  import opened Sending
  import opened TcpEngine
  import opened PendingQueue
  import opened ReceiveInvariant
  import opened ConnInvariant
  import opened AckPhase
  import opened ReceivePhase
  import opened ConnSteps
  import opened CallSteps
  import opened ConnRuns
  import opened Delivery
  import opened TwoEndpoints
  import opened Emissions
  import opened HonestReports

  /** A free fragment slot and four free bytes. */
  predicate HasRoom(r: RecvState) {
    |r.fragments| < Reassembly.MAX_FRAGMENTS && BufferedBytes(r) + 4 <= Reassembly.RECEIVE_CAPACITY
  }

  /** How far the endpoint counts itself acknowledged, how far it has received, and what its application has read. */
  function Acked(e: End): nat { if e.Opened? then e.v.una else 0 }

  function Received(e: End): nat { if e.Opened? then e.v.rcv else 0 }

  function Read(e: End): seq<u8> { if e.Opened? then e.log.read else [] }

  predicate Running(e: End) { e.Live() && e.c.Synchronized() }

  /** The oldest entry is due and may be sent once more. */
  predicate Due(c: Conn, now: int) {
    c.snd.pending != [] && c.snd.pending[0].timeouts < MAX_RETRANSMITS && now >= c.snd.pending[0].Deadline()
  }

  // ---------------------------------------------------------------- the resend

  /** The resend is the oldest range: its bytes, or the FIN. */
  predicate IsOldest(seg: Segment, v: View, ackno: u32) {
    && Bare(seg, ackno) && seg.seqno == At(v.ledger.isn, v.una)
    && (if seg.payload == [] then seg.flags.fin && v.finSent && v.una == 1 + |v.ledger.stream|
        else !seg.flags.fin && v.una <= |v.ledger.stream|)
  }

  lemma ResendIsOldest(key: Key, c: Conn, v: View, now: int)
    requires SyncValid(c, v) && Due(c, now)
    ensures var r := PollRetransmission(key, c, now).1;
            && r.Resent? && IsOldest(r.segment, v, c.rcv.nxt) && c.state != TimeWait
            && Genuine(r.segment, v.una, v.rcv, PollView(c, v, now))
  {
    hide SendValid, Collapse, Expired, AdvertisedWindow, BuildSynAckOptions, BuildActiveSynOptions, At, Flight, NoStall,
         BufferValid, OptValid, RecoveryValid, RttEstimator.Valid, Pending.Deadline, StateOf;
    CoreHasSend(c, v);
    HeadInterval(c.snd, v);
    SendFin(c.snd, v);
    NotYetOver(c, v);
  }

  /** With something in flight the connection is not in TIME-WAIT. */
  lemma NotYetOver(c: Conn, v: View)
    requires SyncValid(c, v) && c.snd.pending != []
    ensures c.state != TimeWait
  {
    hide SendValid, NoStall, RecvValid, RecoveryValid, RttEstimator.Valid;
    CoreHasSend(c, v);
    FinAckedIsExact(c.snd, v);
  }

  // ---------------------------------------------------------------- its arrival

  /** A FIN at `rcv_nxt` is consumed unless bytes are handed over instead. */
  lemma FinIsTaken(c: Conn, v: View, seg: Segment, now: int)
    requires CoreValid(c, v) && StepState(c, v) && HasRoom(c.rcv) && FinOpen(c.state)
    requires seg.flags.fin && seg.payload == [] && seg.seqno == c.rcv.nxt
    ensures FinAccepted(c, seg)
    ensures var got := Receive(c, seg, now); got.accepted != [] || got.peerClosed
  {
    hide SendValid, BufferValid, OptValid, RecoveryValid, RttEstimator.Valid, Receive, Absorb, StateOf, LogicalWindow,
         WindowTest, Release, FinInWindow;
    AdvertisedWindowMeaning(c.rcv, c.opt);
    AtZero(seg.seqno);
    SubSelf(c.rcv.nxt);
    FinTestExact(c.rcv.nxt, LogicalWindow(c.rcv, c.opt), seg.seqno);
    PendingFinCases(c, seg);
    ReceiveCases(c, seg, now);
    EmptyIsTimely(c, seg);
    ReleasedKeepsValid(c, seg);
    AtZero(c.rcv.nxt);
  }

  lemma SubSelf(x: u32)
    ensures Sub(x, x) == 0
  {
  }

  lemma EmptyIsTimely(c: Conn, seg: Segment)
    requires seg.payload == [] && seg.seqno == c.rcv.nxt
    ensures Timely(c.rcv, c.opt, seg)
  {
    SubSelf(seg.seqno);
  }

  /** After the acknowledgment the range at `rcv_nxt` moves it. */
  lemma AfterAckMoves(key: Key, c: Conn, v: View, seg: Segment, fast: Option<Segment>, now: int)
    requires CoreValid(c, v) && StepState(c, v) && HasRoom(c.rcv) && Timely(c.rcv, c.opt, seg)
    requires seg.seqno == c.rcv.nxt && (seg.payload == [] ==> seg.flags.fin && FinOpen(c.state))
    requires fast.Some? ==> exists p: nat :: ResendOf(fast.value, c.rcv.nxt, v, p)
    ensures AfterAckView(key, c, v, seg, now).rcv > v.rcv
  {
    hide CoreValid, StepState, AfterAck, Receive, SendableView, Timely, OptValid, BufferValid, FinAccepted, WindowTest,
         LogicalWindow, ScheduleIfSendable, ResendOf;
    SubSelf(c.rcv.nxt);
    CoreBuffer(c, v);
    ReceiveKeepsValid(c, v, seg, now);
    if seg.payload == [] {
      FinIsTaken(c, v, seg, now);
    } else {
      ReceiveProgress(c, seg, now);
    }
    ScheduleIfSendableKeepsValid(key, Receive(c, seg, now).conn, ReceiveView(c, v, seg, now), now);
  }

  lemma CoreBuffer(c: Conn, v: View)
    requires CoreValid(c, v)
    ensures OptValid(c.opt) && BufferValid(c.rcv, c.opt) && c.rcv.nxt == At(v.peerIsn, v.rcv)
  {
  }

  /** Before the peer's FIN is consumed the state is open for it, also inside a step. */
  lemma OpenForFin(c: Conn, v: View)
    requires StepState(c, v) && !v.peerFin
    ensures FinOpen(c.state)
  {
  }

  /** The resend moves the receiver beyond the start of the range, wherever the receiver stood. */
  lemma ArrivalMoves(key: Key, c: Conn, v: View, s: View, seg: Segment, now: int)
    requires SyncValid(c, v) && c.state != TimeWait && HasRoom(c.rcv) && Timely(c.rcv, c.opt, seg)
    requires Follows(c.rcv, v, s) && IsOldest(seg, s, seg.ackno) && AckAcceptable(c, seg)
    ensures SynchronizedView(key, c, v, seg, now).rcv > s.una
  {
    hide SyncValid, CoreValid, StepState, ProcessAck, AfterAck, AfterAckView, ProcessAckView, FastOk, ParseOptions,
         Timely, SeqLessOrEqual, EpisodeKept, Faithful, FinFaithful, AllGenuine;
    var blocks := ParseOptions(seg.options).value.sackBlocks;
    var (c1, fast) := ProcessAck(key, c, seg, blocks, now);
    var v1 := ProcessAckView(c, v, seg, blocks, now);
    ProcessAckKeepsValid(key, c, v, seg, blocks, now);
    FastIsResend(fast, c.rcv.nxt, c.cc.inRecovery, v.ledger.episode, v1);
    AfterAckKeepsValid(key, c1, v1, seg, fast, now);
    SyncIsCore(c, v);
    FollowsPrefix(c, v, s);
    CoreBuffer(c, v);
    if v.rcv == s.una {
      if seg.payload == [] {
        OpenForFin(c1, v1);
      }
      AfterAckMoves(key, c1, v1, seg, fast, now);
    }
  }

  /** Payload or a FIN is never met with silence: bytes are handed over or something is sent. */
  lemma ArrivalIsAnswered(key: Key, c: Conn, seg: Segment, now: int)
    requires c.Synchronized() && c.state != TimeWait && AckAcceptable(c, seg) && (seg.payload != [] || seg.flags.fin)
    ensures var r := Handle(key, c, seg, now).1; r.accepted != [] || Sent(r) != []
  {
    hide ProcessAck, Receive, ScheduleIfSendable, MakePureAck, AnyPayloadInWindow, FinAccepted, ParseOptions,
         SeqLessOrEqual;
  }

  lemma PlainIsAcceptable(c: Conn, v: View, seg: Segment, q: nat)
    requires SendValid(c.snd, v) && AckFlags(seg.flags) && ParseOptions(seg.options).Ok?
    requires seg.ackno == At(v.ledger.isn, q) && v.una <= q <= v.nxt
    ensures AckAcceptable(c, seg)
  {
    hide ParseOptions, Tiles, QueueSplit, HistoryBelow, At;
    FlightBound(c.snd, v);
    ComparePositions(v.ledger.isn, q, v.nxt);
  }

  /** The two ends of a joint state that both run. */
  lemma BothRun(me: End, peer: End, fromMe: set<Segment>, fromPeer: set<Segment>)
    requires Joint(me, peer, fromMe, fromPeer) && Running(me) && Running(peer)
    ensures SyncValid(me.c, me.v) && SyncValid(peer.c, peer.v) && CoreValid(me.c, me.v) && CoreValid(peer.c, peer.v)
    ensures Follows(peer.c.rcv, peer.v, me.v) && Follows(me.c.rcv, me.v, peer.v)
    ensures Prefixed(peer.v, me.v) && Prefixed(me.v, peer.v)
    ensures me.v.peerIsn == peer.v.ledger.isn && peer.v.peerIsn == me.v.ledger.isn
  {
    hide NetValid, CoreValid, NoStall, StateOf, SynEntry, RttEstimator.Valid, OptValid, Faithful, FinFaithful;
    CoreKnowsPeer(me.c, me.v);
    CoreKnowsPeer(peer.c, peer.v);
  }

  /**
   The resend of the oldest range may arrive, and when it does and the receiver has room, the
   receiver stands beyond the start of the range, and the arrival is not met with silence.
   */
  lemma ResendIsTaken(keyA: Key, keyB: Key, me: End, peer: End, fromMe: set<Segment>, fromPeer: set<Segment>, now: int,
                      later: int)
    requires Joint(me, peer, fromMe, fromPeer) && Running(me) && Running(peer) && Due(me.c, now) && HasRoom(peer.c.rcv)
    ensures var (me', sent) := Move(keyA, me, Local(PollRetransmissions), now);
            && |sent| == 1 && Permitted(Arrive(sent[0]), peer, me', Added(fromMe, sent))
            && var (peer', answer) := Move(keyB, peer, Arrive(sent[0]), later);
               && Received(peer') > me.v.una
               && (peer.c.state == TimeWait || answer != [] || |Read(peer')| > |Read(peer)|)
  {
    hide Joint, SyncValid, CoreValid, PollRetransmission, PollView, HandleSynchronized, SynchronizedView, Follows,
         Genuine, Timely, IsOldest, HandleTimeWait, Bare, HasRoom, Due, Sent;
    BothRun(me, peer, fromMe, fromPeer);
    var (me', sent) := Move(keyA, me, Local(PollRetransmissions), now);
    ResendIsOldest(keyA, me.c, me.v, now);
    var seg := sent[0];
    MoveKeeps(keyA, me, peer, fromMe, fromPeer, Local(PollRetransmissions), now);
    PolledSame(keyA, me, now);
    SyncState(peer.c, peer.v);
    RecentResend(me, me', peer, seg);
    JointFlips(me', peer, Added(fromMe, sent), fromPeer);
    EventAdvances(keyB, peer, me', fromPeer, Added(fromMe, sent), Deliver(seg), later);
    CoreBuffer(me.c, me.v);
    ResendArrives(keyB, peer.c, peer.v, me.v, seg, me.v.rcv, later);
  }

  lemma JointFlips(me: End, peer: End, fromMe: set<Segment>, fromPeer: set<Segment>)
    requires Joint(me, peer, fromMe, fromPeer)
    ensures Joint(peer, me, fromPeer, fromMe)
  {
    hide EndValid, NetValid, Link;
  }

  lemma RecentResend(me: End, me': End, peer: End, seg: Segment)
    requires me.Opened? && me'.Opened? && peer.Opened? && Genuine(seg, me.v.una, me.v.rcv, me'.v)
    requires Prefixed(peer.v, me.v) && Prefixed(me.v, peer.v)
    ensures NotTooOld(seg, peer.v, me'.v)
  {
    hide Genuine;
    assert Recent(me.v.una, me.v.rcv, peer.v);
  }

  /** The arrival of the resend at the receiver, in whatever state. */
  lemma ResendArrives(key: Key, c: Conn, v: View, s: View, seg: Segment, q: nat, now: int)
    requires SyncValid(c, v) && HasRoom(c.rcv) && Follows(c.rcv, v, s) && TimelyEvent(c, Deliver(seg))
    requires IsOldest(seg, s, At(v.ledger.isn, q)) && v.una <= q <= v.nxt
    ensures HandleView(key, c, v, seg, now).rcv > s.una
    ensures var r := Handle(key, c, seg, now).1; c.state == TimeWait || r.accepted != [] || Sent(r) != []
  {
    hide SyncValid, CoreValid, HandleSynchronized, SynchronizedView, Timely, HasRoom, At, Faithful, FinFaithful, Sent,
         ParseOptions;
    SyncIsCore(c, v);
    SyncState(c, v);
    FollowsPrefix(c, v, s);
    if c.state == TimeWait {
      OverIsClosed(c, v);
    } else {
      CoreHasSend(c, v);
      NothingParsed();
      PlainIsAcceptable(c, v, seg, q);
      ArrivalMoves(key, c, v, s, seg, now);
      ArrivalIsAnswered(key, c, seg, now);
    }
  }

  lemma OverIsClosed(c: Conn, v: View)
    requires SyncValid(c, v) && c.state == TimeWait
    ensures v.peerFin && v.FinAcked()
  {
    hide CoreValid, NoStall;
  }

  lemma PolledSame(key: Key, me: End, now: int)
    requires me.Opened? && ConnValid(me.c, me.v)
    ensures var v' := PollView(me.c, me.v, now);
            v' == me.v.(ledger := me.v.ledger.(resent := v'.ledger.resent, episode := v'.ledger.episode))
  {
    hide ConnValid, Pending.Deadline, Pending.Length;
  }

  // ---------------------------------------------------------------- the answer

  /** Whatever a running endpoint sends acknowledges at least all it had received. */
  lemma EmittedAcks(seg: Segment, key: Key, c: Conn, v: View, c': Conn, v': View)
    requires Emitted(seg, key, c, c') && CoreValid(c, v) && CoreValid(c', v') && Extends(v, v')
    ensures AckFlags(seg.flags) && ParseOptions(seg.options).Ok?
    ensures exists q: nat | v.rcv <= q <= v'.rcv :: seg.ackno == At(v.peerIsn, q)
  {
    hide CoreValid, GenerateSackBlocks, BuildSackOptions, AdvertisedWindow, ParseOptions, ParseFrom, At;
    CoreBuffer(c, v);
    CoreBuffer(c', v');
    CoreKnowsPeer(c, v);
    if seg.options == [] {
      NothingParsed();
    }
    if !Bare(seg, c.rcv.nxt) && !Bare(seg, c'.rcv.nxt) {
      var m :| seg == MakePureAck(key, c', m);
      PureAckParses(key, c', m);
    }
    assert seg.ackno == At(v.peerIsn, v.rcv) || seg.ackno == At(v.peerIsn, v'.rcv);
  }

  lemma PureAckParses(key: Key, c: Conn, m: Option<u32>)
    ensures ParseOptions(MakePureAck(key, c, m).options).Ok?
  {
    hide AdvertisedWindow, GenerateSackBlocks, BuildSackOptions, ParseOptions, ParseFrom;
    var bs := GenerateSackBlocks(c.rcv.fragments, m);
    NothingParsed();
    NoBlocksNoOptions();
    if bs != [] {
      SackRoundTrip(bs);
    }
  }

  /** An acknowledgment of `q` that arrives leaves nothing before `q` unacknowledged. */
  lemma AckArrives(key: Key, c: Conn, v: View, seg: Segment, q: nat, now: int)
    requires SyncValid(c, v) && TimelyEvent(c, Deliver(seg)) && AckFlags(seg.flags) && ParseOptions(seg.options).Ok?
    requires seg.ackno == At(v.ledger.isn, q) && v.una <= q <= v.nxt
    ensures HandleView(key, c, v, seg, now).una >= q
  {
    hide SyncValid, CoreValid, StepState, ProcessAck, AfterAck, AfterAckView, ProcessAckView, FastOk, ParseOptions,
         Timely, SeqLessOrEqual, EpisodeKept, AllGenuine, OnlyAck, At;
    SyncIsCore(c, v);
    CoreHasSend(c, v);
    SyncState(c, v);
    if c.state == TimeWait {
      OverIsClosed(c, v);
      FinBoundNxt(c.snd, v);
    } else {
      PlainIsAcceptable(c, v, seg, q);
      var blocks := ParseOptions(seg.options).value.sackBlocks;
      var (c1, fast) := ProcessAck(key, c, seg, blocks, now);
      var v1 := ProcessAckView(c, v, seg, blocks, now);
      AckIsExact(c, v, seg, blocks, now, q);
      ProcessAckKeepsValid(key, c, v, seg, blocks, now);
      FastIsResend(fast, c.rcv.nxt, c.cc.inRecovery, v.ledger.episode, v1);
      AfterAckKeepsValid(key, c1, v1, seg, fast, now);
    }
  }

  lemma FinBoundNxt(s: SendState, v: View)
    requires SendValid(s, v)
    ensures v.nxt <= 2 + |v.ledger.stream|
  {
  }

  lemma RunsAndValid(me: End)
    requires EndValid(me) && Running(me)
    ensures SyncValid(me.c, me.v) && CoreValid(me.c, me.v)
  {
    hide CoreValid, NoStall, StateOf, SynEntry, RttEstimator.Valid, OptValid;
  }

  function EventOf(a: Action): Event
    requires a.Local? || a.Arrive?
  {
    if a.Local? then a.event else Deliver(a.segment)
  }

  /** The segment acknowledges a position beyond `p` that its sender has reached. */
  ghost predicate AcksBeyond(seg: Segment, p: nat, e: End) {
    && e.Opened? && e.v.peerKnown && AckFlags(seg.flags) && ParseOptions(seg.options).Ok?
    && exists q: nat | p < q <= e.v.rcv :: seg.ackno == At(e.v.peerIsn, q)
  }

  lemma AcksBeyondStays(seg: Segment, p: nat, e: End, e': End)
    requires AcksBeyond(seg, p, e) && e'.Opened? && Extends(e.v, e'.v)
    ensures AcksBeyond(seg, p, e')
  {
    hide At, ParseOptions;
    var q: nat :| p < q <= e.v.rcv && seg.ackno == At(e.v.peerIsn, q);
  }

  /** An endpoint that stands beyond `p` says so in whatever it sends. */
  lemma AnswerNames(key: Key, me: End, peer: End, fromMe: set<Segment>, fromPeer: set<Segment>, p: nat, a: Action,
                    now: int, answer: Segment)
    requires Joint(me, peer, fromMe, fromPeer) && Running(me) && p < me.v.rcv && Permitted(a, me, peer, fromPeer)
    requires answer in Move(key, me, a, now).1
    ensures AcksBeyond(answer, p, Move(key, me, a, now).0)
  {
    hide NetValid, Link, EndValid, SyncValid, CoreValid, Step, StepView, IsGenuine, TimelyEvent, Emitted, NotTooOld,
         AckFlags, ParseOptions, At;
    RunsAndValid(me);
    var e := EventOf(a);
    var (me', sent) := StepEnd(key, me, e, now);
    EventAdvances(key, me, peer, fromMe, fromPeer, e, now);
    SyncIsValid(me.c, me.v);
    StepKeepsValid(key, me.c, me.v, e, now);
    StepEmits(key, me.c, me.v, e, now);
    SenderIsCore(key, me.c, me.v, e, now);
    EmittedAcks(answer, key, me.c, me.v, me'.c, me'.v);
    CoreKnowsPeer(me.c, me.v);
  }

  /** When such a segment arrives, the endpoint counts everything up to `p` as acknowledged. */
  lemma AnswerArrives(key: Key, me: End, peer: End, fromMe: set<Segment>, fromPeer: set<Segment>, p: nat,
                      answer: Segment, now: int)
    requires Joint(me, peer, fromMe, fromPeer) && Running(me) && Permitted(Arrive(answer), me, peer, fromPeer)
    requires AcksBeyond(answer, p, peer)
    ensures Acked(Move(key, me, Arrive(answer), now).0) > p
  {
    hide Joint, SyncValid, CoreValid, Step, StepView, TimelyEvent, Permitted, Handle, HandleView, AckFlags,
         ParseOptions, At, IsGenuine, ConnValid;
    MoveExtends(key, me, peer, fromMe, fromPeer, Arrive(answer), now);
    if me.v.una <= p {
      var q: nat :| p < q <= peer.v.rcv && answer.ackno == At(peer.v.peerIsn, q);
      assert SyncValid(me.c, me.v) by { JointRuns(me, peer, fromMe, fromPeer); }
      EventAdvances(key, me, peer, fromMe, fromPeer, Deliver(answer), now);
      ReceivedIsSent(me, peer, fromMe, fromPeer);
      AckArrives(key, me.c, me.v, answer, q, now);
      DeliverIsHandle(key, me, answer, now);
    }
  }

  lemma JointRuns(me: End, peer: End, fromMe: set<Segment>, fromPeer: set<Segment>)
    requires Joint(me, peer, fromMe, fromPeer) && Running(me)
    ensures SyncValid(me.c, me.v)
  {
    hide EndValid, NetValid, Link, SyncValid, CoreValid;
    RunsAndValid(me);
  }

  lemma DeliverIsHandle(key: Key, me: End, seg: Segment, now: int)
    requires me.Opened?
    ensures StepEnd(key, me, Deliver(seg), now).0.v == HandleView(key, me.c, me.v, seg, now)
  {
    hide Handle, HandleView, Sent;
  }

  lemma ReceivedIsSent(me: End, peer: End, fromMe: set<Segment>, fromPeer: set<Segment>)
    requires Joint(me, peer, fromMe, fromPeer) && me.Opened? && peer.Opened? && peer.v.peerKnown
    ensures peer.v.rcv <= me.v.nxt && me.v.una <= peer.v.rcv && peer.v.peerIsn == me.v.ledger.isn
  {
    hide EndValid, NetValid, Faithful, FinFaithful;
  }

  // ---------------------------------------------------------------- the round trip

  lemma MoveExtends(key: Key, me: End, peer: End, fromMe: set<Segment>, fromPeer: set<Segment>, a: Action, now: int)
    requires Joint(me, peer, fromMe, fromPeer) && Permitted(a, me, peer, fromPeer) && me.Opened?
    ensures var me' := Move(key, me, a, now).0; me'.Opened? && Extends(me.v, me'.v)
  {
    hide ConnValid, Step, StepView, Follows, NotTooOld, NetValid, IsGenuine, TimelyEvent, Link;
    if me.Live() {
      var e := if a.Local? then a.event else Deliver(a.segment);
      EventAdvances(key, me, peer, fromMe, fromPeer, e, now);
      StepKeepsValid(key, me.c, me.v, e, now);
    }
  }

  /** Nothing acknowledged or received is ever taken back. */
  lemma {:induction false} PlayExtends(keyA: Key, keyB: Key, w: World, turns: seq<Turn>)
    requires Joint(w.a, w.b, w.fromA, w.fromB) && LegalPlay(keyA, keyB, w, turns) && w.a.Opened? && w.b.Opened?
    ensures var w' := Play(keyA, keyB, w, turns);
            w'.a.Opened? && w'.b.Opened? && Extends(w.a.v, w'.a.v) && Extends(w.b.v, w'.b.v)
    decreases |turns|
  {
    hide Move, EndValid, NetValid, Link, Permitted, Extends;
    ExtendsItself(w.a.v);
    ExtendsItself(w.b.v);
    if turns != [] {
      var t := turns[0];
      var w1 := TwoEndpoints.Next(keyA, keyB, w, t);
      if t.atA {
        MoveKeeps(keyA, w.a, w.b, w.fromA, w.fromB, t.action, t.now);
        MoveExtends(keyA, w.a, w.b, w.fromA, w.fromB, t.action, t.now);
      } else {
        MoveKeeps(keyB, w.b, w.a, w.fromB, w.fromA, t.action, t.now);
        MoveExtends(keyB, w.b, w.a, w.fromB, w.fromA, t.action, t.now);
      }
      PlayExtends(keyA, keyB, w1, turns[1..]);
      var w' := Play(keyA, keyB, w, turns);
      ExtendsAll(w.a.v, w1.a.v, w'.a.v);
      ExtendsAll(w.b.v, w1.b.v, w'.b.v);
    }
  }

  lemma ExtendsItself(v: View)
    ensures Extends(v, v)
  {
  }

  /** The sender's timer fires, and the resend arrives at the receiver. */
  function Resent(keyA: Key, keyB: Key, w: World, now: int, later: int): World {
    var w1 := TwoEndpoints.Next(keyA, keyB, w, Turn(true, Local(PollRetransmissions), now));
    var sent := Move(keyA, w.a, Local(PollRetransmissions), now).1;
    if sent == [] then w1 else TwoEndpoints.Next(keyA, keyB, w1, Turn(false, Arrive(sent[0]), later))
  }

  lemma ResentIsJoint(keyA: Key, keyB: Key, w: World, now: int, later: int)
    requires Joint(w.a, w.b, w.fromA, w.fromB) && Running(w.a) && Running(w.b) && Due(w.a.c, now) && HasRoom(w.b.c.rcv)
    ensures var w' := Resent(keyA, keyB, w, now, later);
            Joint(w'.a, w'.b, w'.fromA, w'.fromB) && w'.a.Opened? && w'.b.Opened? && Received(w'.b) > Acked(w.a)
  {
    hide Move, EndValid, NetValid, Link, Due, HasRoom;
    ResendIsTaken(keyA, keyB, w.a, w.b, w.fromA, w.fromB, now, later);
    var a := Local(PollRetransmissions);
    var (me', sent) := Move(keyA, w.a, a, now);
    assert Permitted(a, w.a, w.b, w.fromB);
    MoveKeeps(keyA, w.a, w.b, w.fromA, w.fromB, a, now);
    MoveExtends(keyA, w.a, w.b, w.fromA, w.fromB, a, now);
    MoveKeeps(keyB, w.b, me', w.fromB, Added(w.fromA, sent), Arrive(sent[0]), later);
    MoveExtends(keyB, w.b, me', w.fromB, Added(w.fromA, sent), Arrive(sent[0]), later);
  }

  /**
   One round trip.  Something is in flight and its timer fires, the receiver has room, and the
   resend gets through.  Then whatever else happens, and however much is lost, any segment that
   the receiver sends from then on moves `snd_una` beyond where it was, whenever it arrives.
   */
  lemma RoundTripAdvances(keyA: Key, keyB: Key, w: World, now: int, later: int, turns: seq<Turn>, a: Action, after: int,
                          answer: Segment, more: seq<Turn>, last: int)
    requires Joint(w.a, w.b, w.fromA, w.fromB) && Running(w.a) && Running(w.b) && Due(w.a.c, now) && HasRoom(w.b.c.rcv)
    requires LegalPlay(keyA, keyB, Resent(keyA, keyB, w, now, later), turns)
    requires var w1 := Play(keyA, keyB, Resent(keyA, keyB, w, now, later), turns);
             var w2 := TwoEndpoints.Next(keyA, keyB, w1, Turn(false, a, after));
             var w3 := Play(keyA, keyB, w2, more);
             && Running(w1.b) && Legal(w1, Turn(false, a, after)) && answer in Move(keyB, w1.b, a, after).1
             && LegalPlay(keyA, keyB, w2, more)
             && Running(w3.a) && Legal(w3, Turn(true, Arrive(answer), last))
    ensures var w1 := Play(keyA, keyB, Resent(keyA, keyB, w, now, later), turns);
            var w2 := TwoEndpoints.Next(keyA, keyB, w1, Turn(false, a, after));
            var w3 := Play(keyA, keyB, w2, more);
            Acked(TwoEndpoints.Next(keyA, keyB, w3, Turn(true, Arrive(answer), last)).a) > Acked(w.a)
  {
    hide EndValid, NetValid, Link, Move, Resent, Due, HasRoom, Permitted, AcksBeyond, Play, LegalPlay, Extends;
    var p := w.a.v.una;
    ResentIsJoint(keyA, keyB, w, now, later);
    var w0 := Resent(keyA, keyB, w, now, later);
    PlayKeeps(keyA, keyB, w0, turns);
    PlayExtends(keyA, keyB, w0, turns);
    var w1 := Play(keyA, keyB, w0, turns);
    assert w1.b.v.rcv > p by { RcvGrows(w0.b.v, w1.b.v); }
    AnswerNames(keyB, w1.b, w1.a, w1.fromB, w1.fromA, p, a, after, answer);
    MoveKeeps(keyB, w1.b, w1.a, w1.fromB, w1.fromA, a, after);
    MoveExtends(keyB, w1.b, w1.a, w1.fromB, w1.fromA, a, after);
    var w2 := TwoEndpoints.Next(keyA, keyB, w1, Turn(false, a, after));
    PlayKeeps(keyA, keyB, w2, more);
    PlayExtends(keyA, keyB, w2, more);
    var w3 := Play(keyA, keyB, w2, more);
    AcksBeyondStays(answer, p, w2.b, w3.b);
    AnswerArrives(keyA, w3.a, w3.b, w3.fromA, w3.fromB, p, answer, last);
  }

  lemma RcvGrows(v: View, v': View)
    requires Extends(v, v')
    ensures v.rcv <= v'.rcv
  {
  }
}
