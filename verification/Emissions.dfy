/** What the segments of an event look like: what they acknowledge, and which SACK blocks they carry. */
module Emissions {
  import opened Primitives
  import opened SequenceSpace
  import opened TcpOptions
  import opened TcpSegments
  import opened TcpTypes
  import opened Receiving
  import opened CongestionControl
  import opened Sending
  import opened TcpEngine
  import opened PendingQueue
  import opened ConnInvariant
  import opened AckPhase
  import opened SendPhase
  import opened ConnSteps
  import opened CallSteps
  import opened ConnRuns
  import opened RecoveryEpisodes

  /** The SACK blocks the peer finds in a segment. */
  function BlocksOf(seg: Segment): seq<SackBlock> {
    var options := ParseOptions(seg.options);
    if options.Ok? then options.value.sackBlocks else []
  }

  predicate AckFlags(f: Flags) { f.ack && !f.syn && !f.rst }

  /** A segment without options that acknowledges `ackno`. */
  predicate Bare(seg: Segment, ackno: u32) { AckFlags(seg.flags) && seg.options == [] && seg.ackno == ackno }

  /** The segment goes from the local to the remote port and advertises the window that `c` has free. */
  predicate Stamped(seg: Segment, key: Key, c: Conn) {
    && seg.sourcePort == key.localPort && seg.destinationPort == key.remotePort && seg.urgent == 0
    && seg.window == AdvertisedWindow(c.rcv, c.opt, c.opt.scaling)
  }

  predicate BareOf(seg: Segment, key: Key, c: Conn) { Bare(seg, c.rcv.nxt) && Stamped(seg, key, c) }

  /**
   What a synchronized connection sends on its way from `c` to `c'`: between its own ports, it
   acknowledges all that was received before the event or after it and advertises the window of
   that moment, and only a pure ACK of the new state carries blocks.
   */
  ghost predicate Emitted(seg: Segment, key: Key, c: Conn, c': Conn) {
    BareOf(seg, key, c) || BareOf(seg, key, c') || (Stamped(seg, key, c') && exists m :: seg == MakePureAck(key, c', m))
  }

  ghost predicate AllEmitted(segs: seq<Segment>, key: Key, c: Conn, c': Conn) {
    forall s | s in segs :: Emitted(s, key, c, c')
  }

  predicate AllBare(segs: seq<Segment>, key: Key, c: Conn) { forall s | s in segs :: BareOf(s, key, c) }

  // ---------------------------------------------------------------- the builders

  lemma {:induction false} SegmentsAreBare(key: Key, c: Conn, seqno: u32, data: seq<u8>, drain: bool)
    requires data == [] || c.opt.sendMss > 0
    ensures AllBare(Segments(key, c, seqno, data, drain), key, c)
    decreases |data|
  {
    hide AdvertisedWindow;
    if data != [] {
      var n := Min(c.opt.sendMss, |data|);
      SegmentsAreBare(key, c, At(seqno, n), data[n..], drain);
    }
  }

  lemma ScheduleIsBare(key: Key, c: Conn, now: int)
    ensures AllBare(Schedule(key, c, now).1, key, c) && Schedule(key, c, now).0.rcv == c.rcv
            && Schedule(key, c, now).0.opt == c.opt
  {
    hide Segments, Entries, UpdatePersist, ToSend, AvailableSendWindow, AdvertisedWindow, MaybeSequenceFin;
    var n := ToSend(c);
    ToSendBound(c);
    SegmentsAreBare(key, c, c.snd.nxt, c.snd.unsent[..n], n == |c.snd.unsent|);
    var c1 := ScheduleData(key, c, now).0;
    FinIsBare(key, c1, now);
    UpdatePersistFrame(c1, now);
    UpdatePersistFrame(MaybeSequenceFin(key, c1, now).0, now);
  }

  lemma FinIsBare(key: Key, c: Conn, now: int)
    ensures var (c', fin) := MaybeSequenceFin(key, c, now); AllBare(fin, key, c) && c'.rcv == c.rcv && c'.opt == c.opt
  {
    hide AvailableSendWindow, AdvertisedWindow;
  }

  lemma ScheduleIfSendableIsBare(key: Key, c: Conn, now: int)
    ensures var (c', segs) := ScheduleIfSendable(key, c, now);
            AllBare(segs, key, c) && c'.rcv == c.rcv && c'.opt == c.opt
  {
    hide Schedule, UpdatePersist;
    ScheduleIsBare(key, c, now);
    UpdatePersistFrame(c, now);
  }

  // ---------------------------------------------------------------- arriving segments

  lemma RecoveryIsStamped(key: Key, c: Conn, now: int)
    ensures var fast := RecoveryResend(key, c, now).1;
            fast.Some? ==> fast.value.options == [] && Stamped(fast.value, key, c)
  {
    hide SelectRecovery, AdvertisedWindow;
  }

  lemma StampedAlike(seg: Segment, key: Key, c: Conn, d: Conn)
    requires Stamped(seg, key, c) && d.rcv == c.rcv && d.opt == c.opt
    ensures Stamped(seg, key, d)
  {
  }

  lemma FastIsStamped(key: Key, c: Conn, seg: Segment, blocks: seq<SackBlock>, now: int)
    ensures var fast := ProcessAck(key, c, seg, blocks, now).1;
            fast.Some? ==> fast.value.options == [] && Stamped(fast.value, key, c)
  {
    hide RetireAcknowledged, MarkSacked, UpdateSendWindow, RecoveryResend, LocalFinAcked, IsDuplicateAck,
         ClearRecovered, Stamped;
    var (c1, r) := RetireAcknowledged(c, seg.ackno, now);
    RetireFrame(c, seg.ackno, now);
    var c2 := ApplySack(c1, seg.ackno, blocks);
    var c3 := c2.(snd := UpdateSendWindow(c2.snd, c2.opt, seg));
    forall d: Conn | d.rcv == c.rcv && d.opt == c.opt && RecoveryResend(key, d, now).1.Some?
      ensures RecoveryResend(key, d, now).1.value.options == [] && Stamped(RecoveryResend(key, d, now).1.value, key, c)
    {
      RecoveryIsStamped(key, d, now);
      StampedAlike(RecoveryResend(key, d, now).1.value, key, d, c);
    }
  }

  lemma FastIsBare(fast: Option<Segment>, ackno: u32, continuing: bool, before: set<nat>, v: View)
    requires FastOk(fast, ackno, continuing, before, v) && (fast.Some? ==> fast.value.options == [])
    ensures fast.Some? ==> Bare(fast.value, ackno)
  {
    hide Carries;
  }

  lemma AfterAckEmits(key: Key, c: Conn, seg: Segment, fast: Option<Segment>, now: int)
    requires fast.Some? ==> BareOf(fast.value, key, c)
    ensures var (c', r) := AfterAck(key, c, seg, fast, now); AllEmitted(Sent(r), key, c, c')
  {
    hide AfterAck, Receive, ScheduleIfSendable, MakePureAck, Absorbs, Stamped;
    AfterAckCases(key, c, seg, fast, now);
    var c0 := if Absorbs(c, seg) then Receive(c, seg, now).conn else c;
    ScheduleIfSendableIsBare(key, c0, now);
    var (c', r) := AfterAck(key, c, seg, fast, now);
    forall s | s in r.scheduled
      ensures BareOf(s, key, c')
    {
      StampedAlike(s, key, c0, c');
    }
    PureAcksAreStamped(key, c');
  }

  lemma PureAcksAreStamped(key: Key, c: Conn)
    ensures forall m :: Stamped(MakePureAck(key, c, m), key, c)
  {
    hide AdvertisedWindow, GenerateSackBlocks, BuildSackOptions;
  }

  lemma EmittedAlike(segs: seq<Segment>, key: Key, c: Conn, d: Conn, c': Conn)
    requires AllEmitted(segs, key, d, c') && d.rcv == c.rcv && d.opt == c.opt
    ensures AllEmitted(segs, key, c, c')
  {
    hide MakePureAck, AdvertisedWindow;
  }

  lemma SynchronizedEmits(key: Key, c: Conn, v: View, seg: Segment, now: int)
    requires SyncValid(c, v) && c.state != TimeWait
    ensures var (c', r) := HandleSynchronized(key, c, seg, now); AllEmitted(Sent(r), key, c, c')
  {
    hide SyncValid, CoreValid, StepState, ProcessAck, AfterAck, ProcessAckView, FastOk, ParseOptions, MakePureAck,
         SeqLessOrEqual, OnlyAck, EpisodeKept, Stamped;
    PureAcksAreStamped(key, c);
    if AckAcceptable(c, seg) {
      var blocks := ParseOptions(seg.options).value.sackBlocks;
      var (c1, fast) := ProcessAck(key, c, seg, blocks, now);
      ProcessAckKeepsValid(key, c, v, seg, blocks, now);
      FastIsStamped(key, c, seg, blocks, now);
      assert fast.Some? ==> Stamped(fast.value, key, c1) by {
        if fast.Some? {
          StampedAlike(fast.value, key, c, c1);
        }
      }
      FastIsBare(fast, c.rcv.nxt, c.cc.inRecovery, v.ledger.episode, ProcessAckView(c, v, seg, blocks, now));
      AfterAckEmits(key, c1, seg, fast, now);
      EmittedAlike(Sent(AfterAck(key, c1, seg, fast, now).1), key, c, c1, AfterAck(key, c1, seg, fast, now).0);
    }
  }

  // ---------------------------------------------------------------- every event

  lemma PollEmits(key: Key, c: Conn, v: View, now: int)
    requires SyncValid(c, v)
    ensures var r := PollRetransmission(key, c, now).1; r.Resent? ==> BareOf(r.segment, key, c)
  {
    hide SendValid, CoreValid, Collapse, Expired, AdvertisedWindow, BuildSynAckOptions, BuildActiveSynOptions, At,
         Flight, NoStall, StateOf, Pending.Deadline;
    if c.snd.pending != [] {
      CoreHasSend(c, v);
      HeadInterval(c.snd, v);
    }
  }

  lemma StepEmits(key: Key, c: Conn, v: View, e: Event, now: int)
    requires SyncValid(c, v)
    ensures var (c', out) := Step(key, c, e, now); AllEmitted(out.sent, key, c, c')
  {
    hide SyncValid, HandleSynchronized, HandleTimeWait, MakePureAck, MakeOutgoingData, BeginClose, PollPersist,
         PollRetransmission, Stamped, Sent;
    SyncState(c, v);
    match e {
      case Deliver(seg) =>
        if c.state == TimeWait {
          TimeWaitEmits(key, c, seg, now);
        } else {
          SynchronizedEmits(key, c, v, seg, now);
        }
      case Write(payload) => WriteEmits(key, c, payload, now);
      case Close => CloseEmits(key, c, now);
      case PollRetransmissions => PollEmits(key, c, v, now);
      case PollProbes => ProbeEmits(key, c, now);
    }
  }

  lemma TimeWaitEmits(key: Key, c: Conn, seg: Segment, now: int)
    ensures var (c', r) := HandleTimeWait(key, c, seg, now); AllEmitted(Sent(r), key, c, c')
  {
    hide MakePureAck, Stamped, At;
    assert Sent(NOTHING) == [];
    PureAcksAreStamped(key, c.(timeWait := Some(now + TIME_WAIT_DURATION)));
  }

  lemma WriteEmits(key: Key, c: Conn, payload: seq<u8>, now: int)
    ensures var r := MakeOutgoingData(key, c, payload, now).1; r.Ok? ==> forall s | s in r.value :: BareOf(s, key, c)
  {
    hide Schedule, SendCheck, Bare, AdvertisedWindow;
    ScheduleIsBare(key, Enqueue(c, payload), now);
  }

  lemma CloseEmits(key: Key, c: Conn, now: int)
    ensures var r := BeginClose(key, c, now).1; r.fin.Some? ==> BareOf(r.fin.value, key, c)
  {
    hide MaybeSequenceFin, UpdatePersist, Bare, AdvertisedWindow;
    FinIsBare(key, Requested(c), now);
    var fin := MaybeSequenceFin(key, Requested(c), now).1;
    assert fin != [] ==> fin[0] in fin && BareOf(fin[0], key, Requested(c));
  }

  lemma ProbeEmits(key: Key, c: Conn, now: int)
    ensures var probe := PollPersist(key, c, now).1; probe.Some? ==> BareOf(probe.value, key, c)
  {
    hide PersistEligible, AdvertisedWindow;
  }

  lemma SyncState(c: Conn, v: View)
    requires SyncValid(c, v)
    ensures c.Synchronized() && c.state != SynSent && c.state != SynReceived
  {
  }

  lemma NoOptionsNoBlocks(seg: Segment)
    requires seg.options == []
    ensures BlocksOf(seg) == []
  {
  }

  lemma OpenersHaveNoBlocks(key: Key, c: Conn)
    ensures BlocksOf(MakeActiveSyn(key, c)) == [] && BlocksOf(MakeSynAck(key, c)) == []
  {
    hide ParseOptions, BuildSynAckOptions, BuildActiveSynOptions, AdvertisedWindow;
    ActiveSynRoundTrip();
    SynAckRoundTrip(c.opt.sack, c.opt.scaling, c.opt.localScale);
  }

  /** Before establishment nothing carries SACK blocks. */
  lemma OpeningEmits(key: Key, c: Conn, v: View, e: Event, now: int)
    requires SynSentValid(c, v) || SynReceivedValid(c, v)
    ensures forall s | s in Step(key, c, e, now).1.sent :: BlocksOf(s) == []
  {
    hide SynSentValid, SynReceivedValid, BlocksOf, Handle, Sent, MakeSynAck, MakeActiveSyn, ResendOldest,
         MakeOutgoingData, BeginClose, PollPersist, Pending.Deadline;
    OpeningState(c, v);
    match e {
      case Deliver(seg) => OpeningReply(key, c, seg, now);
      case PollRetransmissions =>
        OpenersHaveNoBlocks(key, c);
        if c.snd.pending[0].timeouts < MAX_RETRANSMITS {
          ResendKeepsOpening(key, c, v, now);
        }
      case _ => OpeningCallsSendNothing(key, c, e, now);
    }
  }

  lemma OpeningCallsSendNothing(key: Key, c: Conn, e: Event, now: int)
    requires (c.state == SynSent || c.state == SynReceived) && c.persist.deadline.None?
    requires e.Write? || e.Close? || e.PollProbes?
    ensures Step(key, c, e, now).1.sent == []
  {
    hide Schedule, OwnedBytes, MaybeSequenceFin, UpdatePersist, PersistEligible, MakeSegment;
  }

  lemma OpeningState(c: Conn, v: View)
    requires SynSentValid(c, v) || SynReceivedValid(c, v)
    ensures (c.state == SynSent || c.state == SynReceived) && |c.snd.pending| == 1 && c.persist.deadline.None?
  {
  }

  lemma OpeningReply(key: Key, c: Conn, seg: Segment, now: int)
    requires c.state == SynSent || c.state == SynReceived
    ensures forall s | s in Sent(Handle(key, c, seg, now).1) :: BlocksOf(s) == []
  {
    hide BlocksOf, RetireAcknowledged, ParseOptions, MakeSynAck, MakeActiveSyn, AdvertisedWindow, InitialCwnd,
         Negotiate, DecodePeerWindow;
    OpenersHaveNoBlocks(key, c);
    forall s: Segment | s.options == []
      ensures BlocksOf(s) == []
    {
      NoOptionsNoBlocks(s);
    }
  }
}
