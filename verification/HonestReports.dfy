/**
 What an endpoint has received it never gives up, and what it reports in SACK blocks it has.
 */
module HonestReports {
  import opened Primitives
  import opened SequenceSpace
  import opened TcpOptions
  import opened TcpSegments
  import opened TcpTypes
  import opened Receiving
  import opened Sending
  import opened TcpEngine
  import opened ReceiveInvariant
  import opened ConnInvariant
  import opened AckPhase
  import opened ReceivePhase
  import opened ConnSteps
  import opened CallSteps
  import opened ConnRuns
  import opened Delivery
  import opened TwoEndpoints
  import opened SackReports
  import opened Emissions

  // ---------------------------------------------------------------- what an endpoint has

  /** The receiver has delivered the position or holds its byte. */
  predicate HasAt(r: RecvState, v: View, p: nat) {
    v.peerKnown && (p < v.rcv || Held(r, p - v.rcv).Some?)
  }

  predicate Has(e: End, p: nat) { e.Opened? && HasAt(e.c.rcv, e.v, p) }

  lemma AbsorbKeepsHeld(c: Conn, seg: Segment, o: nat)
    requires OptValid(c.opt) && BufferValid(c.rcv, c.opt) && Timely(c.rcv, c.opt, seg) && Held(c.rcv, o).Some?
    ensures Held(Absorb(c, seg), o).Some?
  {
    hide LogicalWindow, WindowTest, FinInWindow, Receiving.Accept, OptValid, InReach, BufferValid, StartOffset,
         AnyPayloadInWindow;
    OverlapsIsAny(c, seg);
    AbsorbCases(c, seg);
    if AnyPayloadInWindow(c, seg) {
      AcceptMeaning(c.rcv, c.opt, seg.seqno, seg.payload, o);
    }
  }

  /** Receiving gives nothing up: insertion keeps old bytes, release delivers them, the FIN steps over none. */
  lemma ReceiveKeepsHas(c: Conn, v: View, seg: Segment, now: int, p: nat)
    requires CoreValid(c, v) && Timely(c.rcv, c.opt, seg) && HasAt(c.rcv, v, p)
    ensures HasAt(Receive(c, seg, now).conn.rcv, ReceiveView(c, v, seg, now), p)
  {
    hide SendValid, BufferValid, OptValid, Timely, RttEstimator.Valid, RecoveryValid, Released, Receive, Absorb, At,
         Held;
    var (bytes, r) := Released(c, seg);
    ReceiveCases(c, seg, now);
    ReleasedKeepsValid(c, seg);
    if v.rcv + |bytes| <= p {
      var o := p - v.rcv;
      AbsorbKeepsHeld(c, seg, o);
      ReleasedBytes(c, seg, o - |bytes|);
      if Receive(c, seg, now).peerClosed && o > |bytes| {
        ConsumedRecv(c.(rcv := r), now);
        SteppedOver(r, c.opt, o - |bytes| - 1);
      }
    }
  }

  lemma SteppedOver(r: RecvState, opt: Negotiated, o: nat)
    requires BufferValid(r, opt) && (r.fragments != [] ==> Sub(r.fragments[0].start, r.nxt) > 0)
    ensures Held(r.(nxt := At(r.nxt, 1), pendingFin := None), o) == Held(r, o + 1)
  {
    StepOverFin(r, Limit(opt), o) by { LimitIsCapacity(opt); }
    assert Held(r.(nxt := At(r.nxt, 1), pendingFin := None), o) == Held(r.(nxt := At(r.nxt, 1)), o);
  }

  lemma SynchronizedKeepsHas(key: Key, c: Conn, v: View, seg: Segment, now: int, p: nat)
    requires SyncValid(c, v) && c.state != TimeWait && (!seg.flags.rst ==> Timely(c.rcv, c.opt, seg))
    requires HasAt(c.rcv, v, p)
    ensures HasAt(HandleSynchronized(key, c, seg, now).0.rcv, SynchronizedView(key, c, v, seg, now), p)
  {
    hide SyncValid, CoreValid, StepState, ProcessAck, AfterAck, ProcessAckView, FastOk, ParseOptions, MakePureAck,
         Timely, SeqLessOrEqual, Receive, ScheduleIfSendable, SendableView, Absorbs, Held, EpisodeKept, AllGenuine;
    if AckAcceptable(c, seg) {
      var blocks := ParseOptions(seg.options).value.sackBlocks;
      var (c1, fast) := ProcessAck(key, c, seg, blocks, now);
      var v1 := ProcessAckView(c, v, seg, blocks, now);
      ProcessAckKeepsValid(key, c, v, seg, blocks, now);
      AfterAckCases(key, c1, seg, fast, now);
      ReceiveKeepsValid(c1, v1, seg, now);
      var c0 := if Absorbs(c1, seg) then Receive(c1, seg, now).conn else c1;
      var v0 := if Absorbs(c1, seg) then ReceiveView(c1, v1, seg, now) else v1;
      ReceiveKeepsHas(c1, v1, seg, now, p);
      ScheduleIfSendableKeepsValid(key, c0, v0, now);
    }
  }

  lemma QuietKeepsHas(c: Conn, c': Conn, v: View, v': View, p: nat)
    requires Quiet(c, c', v, v') && HasAt(c.rcv, v, p)
    ensures HasAt(c'.rcv, v', p)
  {
  }

  lemma OpeningHas(key: Key, c: Conn, v: View, seg: Segment, now: int, p: nat)
    requires (SynSentValid(c, v) || SynReceivedValid(c, v)) && HasAt(c.rcv, v, p)
    ensures HasAt(Handle(key, c, seg, now).0.rcv, HandleView(key, c, v, seg, now), p)
  {
    hide ParseOptions, RetireAcknowledged, RttEstimator.Valid, OptValid, SampledLedger, At, MakeSynAck;
    assert p < v.rcv;
  }

  /** No event makes an endpoint give up a byte it has. */
  lemma StepKeepsHas(key: Key, c: Conn, v: View, e: Event, now: int, p: nat)
    requires ConnValid(c, v) && TimelyEvent(c, e) && HasAt(c.rcv, v, p)
    ensures HasAt(Step(key, c, e, now).0.rcv, StepView(key, c, v, e, now), p)
  {
    hide SyncValid, SynSentValid, SynReceivedValid, Timely, HandleSynchronized, HandleSynSent, HandleSynReceived,
         SynSentView, SynReceivedView, SynchronizedView, Held, MakeOutgoingData, SendView, BeginClose, CloseView,
         PollRetransmission, PollView, PollPersist, Quiet, HandleTimeWait;
    if !e.Deliver? {
      LocalIsQuiet(key, c, v, e, now);
      QuietKeepsHas(c, Step(key, c, e, now).0, v, StepView(key, c, v, e, now), p);
    } else if c.state == SynSent || c.state == SynReceived {
      OpeningHas(key, c, v, e.segment, now, p);
    } else if c.state == TimeWait {
      assert HandleTimeWait(key, c, e.segment, now).0.rcv == c.rcv by { TimeWaitKeepsRcv(key, c, e.segment, now); }
    } else {
      SynchronizedKeepsHas(key, c, v, e.segment, now, p);
    }
  }

  lemma TimeWaitKeepsRcv(key: Key, c: Conn, seg: Segment, now: int)
    ensures HandleTimeWait(key, c, seg, now).0.rcv == c.rcv
  {
  }

  // ---------------------------------------------------------------- what a report says

  /** Read from the acknowledged position on, the block names positions that the receiver has. */
  ghost predicate BlockTrue(b: SackBlock, ackPos: nat, r: RecvState, v: View) {
    var ack := At(v.peerIsn, ackPos);
    v.peerKnown && forall p: nat | ackPos + Sub(b.left, ack) <= p < ackPos + Sub(b.right, ack) :: HasAt(r, v, p)
  }

  ghost predicate ReportTrue(blocks: seq<SackBlock>, ackPos: nat, r: RecvState, v: View) {
    forall b | b in blocks :: BlockTrue(b, ackPos, r, v)
  }

  /** The segment stands at `pos`, acknowledges up to `ackPos` and reports only what its sender has. */
  ghost predicate Reading(seg: Segment, pos: nat, ackPos: nat, e: End) {
    e.Opened? && Genuine(seg, pos, ackPos, e.v) && ReportTrue(BlocksOf(seg), ackPos, e.c.rcv, e.v)
  }

  ghost predicate Honest(seg: Segment, e: End) { exists pos: nat, ackPos: nat :: Reading(seg, pos, ackPos, e) }

  lemma PureAckBlocks(key: Key, c: Conn, m: Option<u32>)
    ensures var bs := BlocksOf(MakePureAck(key, c, m)); bs == [] || bs == GenerateSackBlocks(c.rcv.fragments, m)
  {
    hide AdvertisedWindow, GenerateSackBlocks, BuildSackOptions, ParseOptions, ParseFrom;
    var bs := GenerateSackBlocks(c.rcv.fragments, m);
    if c.opt.sack && bs != [] {
      SackRoundTrip(bs);
    } else {
      assert BuildSackOptions([]) == [] by { NoBlocksNoOptions(); }
      assert ParseOptions([]) == Ok(NO_OPTIONS) by { NothingParsed(); }
    }
  }

  lemma NoBlocksNoOptions()
    ensures BuildSackOptions([]) == []
  {
  }

  lemma NothingParsed()
    ensures ParseOptions([]) == Ok(NO_OPTIONS)
  {
  }

  lemma PureAckIsReading(key: Key, c: Conn, v: View, log: Log, m: Option<u32>)
    requires CoreValid(c, v)
    ensures Reading(MakePureAck(key, c, m), v.nxt, v.rcv, Opened(c, v, log))
  {
    hide AdvertisedWindow, GenerateSackBlocks, BuildSackOptions, SendValid, BufferValid, OptValid, RecoveryValid,
         RttEstimator.Valid, BlocksOf, Held, At;
    SendOrder(c.snd, v);
    var seg := MakePureAck(key, c, m);
    PureAckBlocks(key, c, m);
    forall b, p: nat | b in BlocksOf(seg) && v.rcv + Sub(b.left, c.rcv.nxt) <= p < v.rcv + Sub(b.right, c.rcv.nxt)
      ensures HasAt(c.rcv, v, p)
    {
      ReportedIsHeld(c.rcv, c.opt, m, b, p - v.rcv);
    }
  }

  lemma BlocklessIsHonest(seg: Segment, e: End)
    requires e.Opened? && IsGenuine(seg, e.v) && BlocksOf(seg) == []
    ensures Honest(seg, e)
  {
    hide Genuine, BlocksOf;
    var pos: nat, ackPos: nat :| Genuine(seg, pos, ackPos, e.v);
    assert Reading(seg, pos, ackPos, e);
  }

  lemma EmittedIsHonest(seg: Segment, key: Key, c: Conn, e: End)
    requires e.Opened? && Emitted(seg, key, c, e.c) && IsGenuine(seg, e.v) && CoreValid(e.c, e.v)
    ensures Honest(seg, e)
  {
    hide MakePureAck, CoreValid, IsGenuine, BlocksOf, Reading;
    if seg.options == [] {
      NoOptionsNoBlocks(seg);
      BlocklessIsHonest(seg, e);
    } else {
      var m :| seg == MakePureAck(key, e.c, m);
      PureAckIsReading(key, e.c, e.v, e.log, m);
    }
  }

  /** Whatever is sent, the invariant's core holds of the sender. */
  lemma SenderIsCore(key: Key, c: Conn, v: View, e: Event, now: int)
    requires SyncValid(c, v) && TimelyEvent(c, e) && Step(key, c, e, now).1.sent != []
    ensures CoreValid(Step(key, c, e, now).0, StepView(key, c, v, e, now))
  {
    hide SyncValid, CoreValid, Timely, Step, StepView, SynchronizedView, HandleSynchronized, Genuine, Extends;
    var c', v' := Step(key, c, e, now).0, StepView(key, c, v, e, now);
    SyncState(c, v);
    SyncIsValid(c, v);
    StepKeepsValid(key, c, v, e, now);
    if c'.removal {
      RemovalSends(key, c, v, e, now);
    } else {
      StillSynchronized(key, c, v, e, now);
    }
  }

  lemma StillSynchronized(key: Key, c: Conn, v: View, e: Event, now: int)
    requires SyncValid(c, v) && TimelyEvent(c, e) && !Step(key, c, e, now).0.removal
    ensures SyncValid(Step(key, c, e, now).0, StepView(key, c, v, e, now))
    ensures CoreValid(Step(key, c, e, now).0, StepView(key, c, v, e, now))
  {
    hide CoreValid, NoStall, Timely, Step, StepView, Genuine, StateOf;
    var c', v' := Step(key, c, e, now).0, StepView(key, c, v, e, now);
    SyncIsValid(c, v);
    StepKeepsValid(key, c, v, e, now);
    CoreHasSend(c, v);
    SendOrder(c.snd, v);
    OpeningIsZero(c', v');
  }

  lemma OpeningIsZero(c: Conn, v: View)
    requires ConnValid(c, v) && 0 < v.una
    ensures SyncValid(c, v)
  {
    hide SyncValid, SynEntry, RttEstimator.Valid, OptValid;
  }

  /** A connection that is removed and sends something has processed an acknowledgment. */
  lemma RemovalSends(key: Key, c: Conn, v: View, e: Event, now: int)
    requires SyncValid(c, v) && TimelyEvent(c, e)
    requires Step(key, c, e, now).0.removal && Step(key, c, e, now).1.sent != []
    ensures CoreValid(Step(key, c, e, now).0, StepView(key, c, v, e, now))
  {
    hide SyncValid, CoreValid, StepState, ProcessAck, AfterAck, AfterAckView, ProcessAckView, FastOk, ParseOptions,
         MakePureAck, Timely, SeqLessOrEqual, MakeOutgoingData, BeginClose, PollPersist, PersistEligible, OnlyAck,
         EpisodeKept, AllGenuine, ConnValid, ResendOldest, Pending.Deadline, Extends;
    SyncState(c, v);
    SyncIsValid(c, v);
    match e {
      case Deliver(seg) =>
        if c.state != TimeWait && AckAcceptable(c, seg) {
          var blocks := ParseOptions(seg.options).value.sackBlocks;
          var (c1, fast) := ProcessAck(key, c, seg, blocks, now);
          var v1 := ProcessAckView(c, v, seg, blocks, now);
          ProcessAckKeepsValid(key, c, v, seg, blocks, now);
          FastIsResend(fast, c.rcv.nxt, c.cc.inRecovery, v.ledger.episode, v1);
          AfterAckKeepsValid(key, c1, v1, seg, fast, now);
        } else {
          RemovedByReset(key, c, v, seg, now);
        }
      case Write(payload) => SendKeepsValid(key, c, v, payload, now);
      case Close => CloseKeepsValid(key, c, v, now);
      case PollRetransmissions => PollRemoves(key, c, v, now);
      case PollProbes => PersistKeepsValid(key, c, v, now);
    }
  }

  lemma RemovedByReset(key: Key, c: Conn, v: View, seg: Segment, now: int)
    requires SyncValid(c, v) && (c.state == TimeWait || !AckAcceptable(c, seg)) && Handle(key, c, seg, now).0.removal
    ensures Sent(Handle(key, c, seg, now).1) == []
  {
    hide CoreValid, NoStall, ParseOptions, MakePureAck, SeqLessOrEqual, StateOf;
  }

  lemma PollRemoves(key: Key, c: Conn, v: View, now: int)
    requires SyncValid(c, v) && PollRetransmission(key, c, now).0.removal
    ensures !PollRetransmission(key, c, now).1.Resent?
  {
    hide CoreValid, NoStall, StateOf, ResendOldest, Pending.Deadline;
    if c.snd.pending != [] {
      ResendFrame(key, c, now);
    }
  }

  ghost predicate NetHonest(net: set<Segment>, e: End) { forall s | s in net :: s.flags.rst || Honest(s, e) }

  ghost predicate Keeps(e: End, e': End) { forall p: nat | Has(e, p) :: Has(e', p) }

  lemma BlockStays(b: SackBlock, ackPos: nat, e: End, e': End)
    requires e.Opened? && e'.Opened? && BlockTrue(b, ackPos, e.c.rcv, e.v) && Extends(e.v, e'.v) && Keeps(e, e')
    ensures BlockTrue(b, ackPos, e'.c.rcv, e'.v)
  {
    hide HasAt, At;
    var ack := At(e.v.peerIsn, ackPos);
    forall p: nat | ackPos + Sub(b.left, ack) <= p < ackPos + Sub(b.right, ack)
      ensures HasAt(e'.c.rcv, e'.v, p)
    {
      assert Has(e, p);
    }
  }

  lemma HonestStays(seg: Segment, e: End, e': End)
    requires Honest(seg, e) && e'.Opened? && Extends(e.v, e'.v) && Keeps(e, e')
    ensures Honest(seg, e')
  {
    hide Genuine, BlockTrue, BlocksOf, Extends, Keeps;
    var pos: nat, ackPos: nat :| Reading(seg, pos, ackPos, e);
    GenuineStays(seg, pos, ackPos, e.v, e'.v);
    forall b | b in BlocksOf(seg)
      ensures BlockTrue(b, ackPos, e'.c.rcv, e'.v)
    {
      BlockStays(b, ackPos, e, e');
    }
    assert Reading(seg, pos, ackPos, e');
  }

  lemma NetStaysHonest(net: set<Segment>, segs: seq<Segment>, e: End, e': End)
    requires NetHonest(net, e) && (forall s | s in segs :: Honest(s, e'))
    requires e.Opened? ==> e'.Opened? && Extends(e.v, e'.v) && Keeps(e, e')
    ensures NetHonest(Added(net, segs), e')
  {
    hide Extends, Keeps, Genuine, ReportTrue;
    forall s | s in Added(net, segs) && !s.flags.rst
      ensures Honest(s, e')
    {
      if s !in segs {
        HonestStays(s, e, e');
      }
    }
  }

  /** Everything one event sends is honest. */
  lemma StepIsHonest(key: Key, me: End, e: Event, now: int)
    requires me.Live() && ConnValid(me.c, me.v) && TimelyEvent(me.c, e)
    ensures var (me', sent) := StepEnd(key, me, e, now); forall s | s in sent :: Honest(s, me')
  {
    hide SyncValid, SynSentValid, SynReceivedValid, Step, StepView, Honest, Emitted, IsGenuine, TimelyEvent, BlocksOf,
         CoreValid, Extends;
    var (me', sent) := StepEnd(key, me, e, now);
    StepKeepsValid(key, me.c, me.v, e, now);
    forall s | s in sent
      ensures Honest(s, me')
    {
      if me.c.state == SynSent || me.c.state == SynReceived {
        OpeningEmits(key, me.c, me.v, e, now);
        BlocklessIsHonest(s, me');
      } else {
        StepEmits(key, me.c, me.v, e, now);
        SenderIsCore(key, me.c, me.v, e, now);
        EmittedIsHonest(s, key, me.c, me');
      }
    }
  }

  // ---------------------------------------------------------------- the order of a report

  /**
   The first block of the reply to a segment is the fragment that holds its first usable byte, if
   that is still buffered (section 4 of RFC 2018).
   */
  lemma FirstBlockIsNewest(c: Conn, seg: Segment, now: int, f: Fragment)
    requires OptValid(c.opt) && BufferValid(c.rcv, c.opt) && Timely(c.rcv, c.opt, seg) && AnyPayloadInWindow(c, seg)
    requires f in Receive(c, seg, now).conn.rcv.fragments
    requires Holds(f, c.rcv.nxt, Max(StartOffset(c.rcv.nxt, seg.seqno), 0))
    ensures var got := Receive(c, seg, now);
            var bs := GenerateSackBlocks(got.conn.rcv.fragments, got.mostRecent);
            bs != [] && bs[0] == SackBlock(f.start, f.End())
  {
    hide LogicalWindow, WindowTest, OptValid, MostRecent, Release, GenerateSackBlocks, StartOffset, InReach,
         Receiving.Accept, FinAccepted, Holds;
    var base, o := c.rcv.nxt, Max(StartOffset(c.rcv.nxt, seg.seqno), 0);
    var r := Absorb(c, seg);
    var got := Receive(c, seg, now);
    AbsorbKeepsValid(c, seg);
    FirstUsable(c, seg);
    assert got.conn.rcv.fragments == Release(r.nxt, r.fragments).2;
    ReleasedAreOld(r.nxt, r.fragments, f);
    LimitIsCapacity(c.opt);
    CanonicalIsSpaced(Runs(r), Limit(c.opt));
    SearchFinds(r.fragments, base, 0, Limit(c.opt), f, o);
    forall g | g in got.conn.rcv.fragments && g.start == f.start
      ensures g == f
    {
      ReleasedAreOld(r.nxt, r.fragments, g);
      StartsDiffer(r.fragments, base, 0, Limit(c.opt), f, g);
    }
    NamedFirst(got.conn.rcv.fragments, f.start, f);
  }

  /** The first usable number of a segment. */
  lemma FirstUsable(c: Conn, seg: Segment)
    requires OptValid(c.opt) && BufferValid(c.rcv, c.opt) && Timely(c.rcv, c.opt, seg) && AnyPayloadInWindow(c, seg)
    ensures WindowTest(c.rcv.nxt, LogicalWindow(c.rcv, c.opt), seg.seqno, |seg.payload|).start
            == At(c.rcv.nxt, Max(StartOffset(c.rcv.nxt, seg.seqno), 0))
  {
    hide LogicalWindow, BufferValid, OptValid, WindowTest;
    AdvertisedWindowMeaning(c.rcv, c.opt);
    LimitIsCapacity(c.opt);
    WindowTestExactness(c.rcv.nxt, LogicalWindow(c.rcv, c.opt), seg.seqno, |seg.payload|);
    NumberOf(c.rcv.nxt, WindowTest(c.rcv.nxt, LogicalWindow(c.rcv, c.opt), seg.seqno, |seg.payload|).start);
  }

  lemma NumberOf(base: u32, x: u32)
    ensures x == At(base, Sub(x, base))
  {
  }
}
