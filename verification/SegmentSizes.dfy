/**
 The negotiated segment size over whole runs: no segment carries more than the peer's MSS allows,
 and a pass cuts the queue into full-sized segments.
 */
module SegmentSizes {
  import opened Primitives
  import opened SequenceSpace
  import opened TcpOptions
  import opened TcpSegments
  import opened TcpTypes
  import opened Receiving
  import opened CongestionControl
  import opened Sending
  import opened TcpEngine
  import opened ConnInvariant
  import opened AckPhase
  import opened ReceivePhase
  import opened SendPhase
  import opened ConnSteps
  import opened CallSteps
  import opened ConnRuns
  import opened RecoveryEpisodes
  import opened Emissions
  import opened HonestReports

  // ---------------------------------------------------------------- negotiation

  /** The largest segment the options of a SYN admit: their MSS, or 536 without one, and never more than 1460. */
  function Admitted(o: ParsedOptions): nat { Min(1460, if o.mss.Some? then o.mss.value else 536) }

  /** What a SYN's options settle: the size, both scales and SACK. */
  lemma NegotiationLaw(o: ParsedOptions)
    ensures var n := Negotiate(o);
            && n.sendMss == Admitted(o) && n.sack == o.sackPermitted && n.scaling == o.windowScale.Some?
            && n.localScale == (if n.scaling then 2 else 0)
            && n.peerScale == (if n.scaling then Min(o.windowScale.value, 14) else 0)
  {
  }

  // ---------------------------------------------------------------- one pass

  /**
   The cut of one pass: full-sized segments and at most one shorter one at the end; only the last
   may carry PSH, and does exactly when the queue is drained.
   */
  predicate CutInto(segs: seq<Segment>, mss: nat, drain: bool) {
    forall i | 0 <= i < |segs| ::
      && 1 <= |segs[i].payload| <= mss && (i + 1 < |segs| ==> |segs[i].payload| == mss)
      && (segs[i].flags.psh <==> drain && i + 1 == |segs|)
  }

  lemma {:induction false} SegmentsAreCut(key: Key, c: Conn, seqno: u32, data: seq<u8>, drain: bool)
    requires c.opt.sendMss > 0
    ensures CutInto(Segments(key, c, seqno, data, drain), c.opt.sendMss, drain)
    ensures (Segments(key, c, seqno, data, drain) == []) == (data == [])
    decreases |data|
  {
    if data != [] {
      var n := Min(c.opt.sendMss, |data|);
      var rest := Segments(key, c, At(seqno, n), data[n..], drain);
      SegmentsAreCut(key, c, At(seqno, n), data[n..], drain);
      var segs := Segments(key, c, seqno, data, drain);
      assert segs[1..] == rest;
      forall i | 0 <= i < |segs|
        ensures 1 <= |segs[i].payload| <= c.opt.sendMss && (i + 1 < |segs| ==> |segs[i].payload| == c.opt.sendMss)
        ensures segs[i].flags.psh <==> drain && i + 1 == |segs|
      {
        if i > 0 {
          assert segs[i] == rest[i - 1];
        }
      }
    }
  }

  /** A pass leaves no short segment but the last, and pushes exactly when nothing is left. */
  lemma PassIsCut(key: Key, c: Conn, now: int)
    requires c.opt.sendMss > 0
    ensures var (c', segs) := ScheduleData(key, c, now); CutInto(segs, c.opt.sendMss, c'.snd.unsent == [])
  {
    hide Segments, Entries;
    var n := ToSend(c);
    ToSendBound(c);
    SegmentsAreCut(key, c, c.snd.nxt, c.snd.unsent[..n], n == |c.snd.unsent|);
    assert c.snd.unsent[n..] == [] <==> n == |c.snd.unsent|;
  }

  // ---------------------------------------------------------------- the queue

  predicate AllWithin(pending: seq<Pending>, n: nat) { forall e | e in pending :: |e.payload| <= n }

  predicate SentWithin(segs: seq<Segment>, n: nat) { forall s | s in segs :: |s.payload| <= n }

  lemma {:induction false} RetireWithin(pending: seq<Pending>, ack: u32, n: nat)
    requires AllWithin(pending, n)
    ensures AllWithin(Retire(pending, ack).pending, n)
    decreases |pending|
  {
    if pending != [] {
      assert AllWithin(pending[1..], n);
      RetireWithin(pending[1..], ack, n);
    }
  }

  lemma RetiredWithin(c: Conn, ack: u32, now: int, n: nat)
    requires AllWithin(c.snd.pending, n)
    ensures AllWithin(RetireAcknowledged(c, ack, now).0.snd.pending, n)
  {
    hide Retire;
    RetireWithin(c.snd.pending, ack, n);
  }

  lemma {:induction false} MarkedWithin(pending: seq<Pending>, ack: u32, nxt: u32, blocks: seq<SackBlock>, n: nat)
    requires AllWithin(pending, n)
    ensures AllWithin(MarkSacked(pending, ack, nxt, blocks), n)
    decreases |pending|
  {
    if pending != [] {
      assert AllWithin(pending[1..], n);
      MarkedWithin(pending[1..], ack, nxt, blocks, n);
    }
  }

  lemma {:induction false} ClearedWithin(pending: seq<Pending>, n: nat)
    requires AllWithin(pending, n)
    ensures AllWithin(ClearRecovered(pending), n) && AllWithin(ClearScoreboard(pending), n)
    decreases |pending|
  {
    if pending != [] {
      assert AllWithin(pending[1..], n);
      ClearedWithin(pending[1..], n);
    }
  }

  lemma RecoveryWithin(key: Key, c: Conn, now: int, n: nat)
    requires AllWithin(c.snd.pending, n)
    ensures var (c', fast) := RecoveryResend(key, c, now);
            AllWithin(c'.snd.pending, n) && (fast.Some? ==> |fast.value.payload| <= n)
  {
    hide SelectRecovery;
  }

  lemma AdvanceWithin(key: Key, c: Conn, ack: u32, r: AckResult, now: int, n: nat)
    requires AllWithin(c.snd.pending, n)
    ensures var (c', fast) := OnAdvance(key, c, ack, r, now);
            AllWithin(c'.snd.pending, n) && (fast.Some? ==> |fast.value.payload| <= n)
  {
    hide RecoveryResend, AllWithin, ClearRecovered, SeqLessOrEqual;
    ClearedWithin(c.snd.pending, n);
    var c1 := c.(cc := c.cc.(duplicateAcks := 0));
    RecoveryWithin(key, c1.(cc := PartialAck(c1.cc, c1.opt.sendMss, r.space)), now, n);
  }

  lemma DuplicateWithin(key: Key, c: Conn, seg: Segment, windowChanged: bool, now: int, n: nat)
    requires AllWithin(c.snd.pending, n)
    ensures var (c', fast) := OnDuplicate(key, c, seg, windowChanged, now);
            AllWithin(c'.snd.pending, n) && (fast.Some? ==> |fast.value.payload| <= n)
  {
    hide RecoveryResend, AllWithin, ClearRecovered, IsDuplicateAck, Flight;
    ClearedWithin(c.snd.pending, n);
    var c1 := c.(cc := c.cc.(duplicateAcks := c.cc.duplicateAcks + 1));
    RecoveryWithin(key, c1.(cc := Inflate(c1.cc, c1.opt.sendMss)), now, n);
    RecoveryWithin(key, c1.(cc := EnterRecovery(c1.cc, c1.opt.sendMss, Flight(c1.snd), c1.snd.nxt),
                            snd := c1.snd.(pending := ClearRecovered(c1.snd.pending))), now, n);
  }

  lemma ProcessAckWithin(key: Key, c: Conn, seg: Segment, blocks: seq<SackBlock>, now: int, n: nat)
    requires AllWithin(c.snd.pending, n)
    ensures var (c', fast) := ProcessAck(key, c, seg, blocks, now);
            AllWithin(c'.snd.pending, n) && (fast.Some? ==> |fast.value.payload| <= n)
  {
    hide RetireAcknowledged, MarkSacked, OnAdvance, OnDuplicate, LocalFinAcked, AllWithin, DecodePeerWindow;
    var (c1, r) := RetireAcknowledged(c, seg.ackno, now);
    RetiredWithin(c, seg.ackno, now, n);
    MarkedWithin(c1.snd.pending, seg.ackno, c1.snd.nxt, blocks, n);
    var c2 := ApplySack(c1, seg.ackno, blocks);
    var c3 := c2.(snd := UpdateSendWindow(c2.snd, c2.opt, seg));
    AdvanceWithin(key, c3, seg.ackno, r, now, n);
    DuplicateWithin(key, c3, seg, c3.snd.wnd != c2.snd.wnd, now, n);
    assert AllWithin([], n) by { NothingWithin(n); }
  }

  lemma NothingWithin(n: nat)
    ensures AllWithin([], n)
  {
  }

  lemma {:induction false} EntriesWithin(segs: seq<Segment>, now: int, rto: int, n: nat)
    requires SentWithin(segs, n)
    ensures AllWithin(Entries(segs, now, rto), n)
    decreases |segs|
  {
    if segs != [] {
      assert SentWithin(segs[1..], n);
      EntriesWithin(segs[1..], now, rto, n);
    }
  }

  lemma FinIsWithin(key: Key, c: Conn, now: int, n: nat)
    requires AllWithin(c.snd.pending, n)
    ensures var (c', segs) := MaybeSequenceFin(key, c, now);
            AllWithin(c'.snd.pending, n) && SentWithin(segs, n) && c'.opt == c.opt
  {
    hide AvailableSendWindow;
  }

  lemma ScheduleWithin(key: Key, c: Conn, now: int)
    requires AllWithin(c.snd.pending, c.opt.sendMss) && c.opt.sendMss > 0
    ensures var (c', segs) := Schedule(key, c, now);
            AllWithin(c'.snd.pending, c.opt.sendMss) && SentWithin(segs, c.opt.sendMss) && c'.opt == c.opt
  {
    hide Segments, Entries, PersistEligible, MaybeSequenceFin, ToSend;
    var n := ToSend(c);
    ToSendBound(c);
    var segs := Segments(key, c, c.snd.nxt, c.snd.unsent[..n], n == |c.snd.unsent|);
    SegmentsAreCut(key, c, c.snd.nxt, c.snd.unsent[..n], n == |c.snd.unsent|);
    assert SentWithin(segs, c.opt.sendMss);
    EntriesWithin(segs, now, c.rtt.rto, c.opt.sendMss);
    FinIsWithin(key, ScheduleData(key, c, now).0, now, c.opt.sendMss);
  }

  lemma AfterAckWithin(key: Key, c: Conn, seg: Segment, fast: Option<Segment>, now: int)
    requires AllWithin(c.snd.pending, c.opt.sendMss) && c.opt.sendMss > 0
    requires fast.Some? ==> |fast.value.payload| <= c.opt.sendMss
    ensures var (c', r) := AfterAck(key, c, seg, fast, now);
            AllWithin(c'.snd.pending, c.opt.sendMss) && SentWithin(Sent(r), c.opt.sendMss) && c'.opt == c.opt
  {
    hide AfterAck, Receive, Schedule, Absorbs, AllWithin, UpdatePersist, GenerateSackBlocks;
    AfterAckCases(key, c, seg, fast, now);
    var c0 := if Absorbs(c, seg) then Receive(c, seg, now).conn else c;
    ReceiveLeaves(c, seg, now);
    NothingWithin(c.opt.sendMss);
    ScheduleWithin(key, c0, now);
    UpdatePersistFrame(c0, now);
  }

  lemma ReceiveLeaves(c: Conn, seg: Segment, now: int)
    ensures var c' := Receive(c, seg, now).conn;
            c'.opt == c.opt && (c'.snd.pending == c.snd.pending || c'.snd.pending == [])
  {
    hide Released, Receive;
    ReceiveCases(c, seg, now);
  }

  // ---------------------------------------------------------------- every event

  predicate Sized(c: Conn) { AllWithin(c.snd.pending, c.opt.sendMss) && c.opt.sendMss > 0 }

  lemma SynchronizedSized(key: Key, c: Conn, v: View, seg: Segment, now: int)
    requires SyncValid(c, v) && c.state != TimeWait && Sized(c)
    ensures var (c', r) := HandleSynchronized(key, c, seg, now);
            Sized(c') && c'.opt == c.opt && SentWithin(Sent(r), c.opt.sendMss)
  {
    hide SyncValid, CoreValid, StepState, ProcessAck, AfterAck, ProcessAckView, FastOk, ParseOptions, SeqLessOrEqual,
         OnlyAck, EpisodeKept, AllWithin, GenerateSackBlocks;
    if AckAcceptable(c, seg) {
      var blocks := ParseOptions(seg.options).value.sackBlocks;
      var (c1, fast) := ProcessAck(key, c, seg, blocks, now);
      ProcessAckKeepsValid(key, c, v, seg, blocks, now);
      ProcessAckWithin(key, c, seg, blocks, now, c.opt.sendMss);
      AfterAckWithin(key, c1, seg, fast, now);
    }
  }

  lemma PollSized(key: Key, c: Conn, now: int)
    requires AllWithin(c.snd.pending, c.opt.sendMss)
    ensures var (c', r) := PollRetransmission(key, c, now);
            && AllWithin(c'.snd.pending, c.opt.sendMss) && c'.opt == c.opt
            && (r.Resent? ==> |r.segment.payload| <= c.opt.sendMss)
  {
    hide Collapse, Pending.Deadline, ClearScoreboard, Flight, RttEstimator.BackOff, AdvertisedWindow,
         BuildSynAckOptions, BuildActiveSynOptions;
    ClearedWithin(c.snd.pending, c.opt.sendMss);
  }

  /** Once the options are settled they stay, and everything sent is within the size. */
  lemma StepSized(key: Key, c: Conn, v: View, e: Event, now: int)
    requires SyncValid(c, v) && Sized(c)
    ensures var (c', out) := Step(key, c, e, now); Sized(c') && c'.opt == c.opt && SentWithin(out.sent, c.opt.sendMss)
  {
    hide SyncValid, HandleSynchronized, Schedule, GenerateSackBlocks, AdvertisedWindow, MaybeSequenceFin, UpdatePersist,
         OwnedBytes, PollRetransmission, PersistEligible, AllWithin;
    SyncState(c, v);
    match e {
      case Deliver(seg) =>
        if c.state != TimeWait {
          SynchronizedSized(key, c, v, seg, now);
        }
      case Write(payload) => ScheduleWithin(key, Enqueue(c, payload), now);
      case Close =>
        FinIsWithin(key, Requested(c), now, c.opt.sendMss);
        UpdatePersistFrame(MaybeSequenceFin(key, Requested(c), now).0, now);
      case PollRetransmissions => PollSized(key, c, now);
      case PollProbes => ProbeIsOneByte(key, c, now);
    }
  }

  /**
   A window probe is the first byte that waits, and it changes only the timer, whose interval
   doubles up to a minute.
   */
  lemma ProbeIsOneByte(key: Key, c: Conn, now: int)
    ensures var (c', probe) := PollPersist(key, c, now);
            && c' == c.(persist := c'.persist)
            && (probe.Some? ==>
                  && |c.snd.unsent| > 0 && probe.value.payload == [c.snd.unsent[0]]
                  && c'.persist.interval == Min(2 * c.persist.interval, 60 * SECOND)
                  && c'.persist.deadline == Some(now + c'.persist.interval))
  {
    hide AdvertisedWindow;
  }

  // ---------------------------------------------------------------- opening

  /** Before establishment nothing carries payload; establishment settles the options and empties the queue. */
  lemma OpeningSized(key: Key, c: Conn, v: View, e: Event, now: int)
    requires SynSentValid(c, v) || SynReceivedValid(c, v)
    ensures var (c', out) := Step(key, c, e, now);
            && SentWithin(out.sent, 0)
            && (if c.state == SynSent && e.Deliver? && CompletesConnect(c, e.segment) then
                  c'.Synchronized() && c'.opt == Negotiate(ParseOptions(e.segment.options).value)
                else c'.opt == c.opt && (c.state == SynSent ==> c'.state == SynSent))
            && (c'.Synchronized() ==> c'.snd.pending == [])
  {
    hide SynSentValid, SynReceivedValid, Handle, MakeOutgoingData, BeginClose, PollPersist, PollRetransmission, Sent,
         Negotiate, ParseOptions, CompletesConnect;
    OpeningState(c, v);
    match e {
      case Deliver(seg) => OpeningArrival(key, c, v, seg, now);
      case PollRetransmissions => OpeningPoll(key, c, v, now);
      case _ => OpeningCalls(key, c, e, now);
    }
  }

  lemma OpeningCalls(key: Key, c: Conn, e: Event, now: int)
    requires (c.state == SynSent || c.state == SynReceived) && c.persist.deadline.None?
    requires e.Write? || e.Close? || e.PollProbes?
    ensures Step(key, c, e, now).0 == c && Step(key, c, e, now).1.sent == []
  {
    hide Schedule, OwnedBytes, MaybeSequenceFin, UpdatePersist, PersistEligible, MakeSegment;
  }

  lemma OpeningPoll(key: Key, c: Conn, v: View, now: int)
    requires SynSentValid(c, v) || SynReceivedValid(c, v)
    ensures var (c', r) := PollRetransmission(key, c, now);
            c'.state == c.state && c'.opt == c.opt && (r.Resent? ==> r.segment.payload == [])
  {
    hide SynSentValid, SynReceivedValid, ResendOldest, Pending.Deadline, BuildSynAckOptions, BuildActiveSynOptions,
         AdvertisedWindow;
    OpeningState(c, v);
    ResendFrame(key, c, now);
    if c.snd.pending[0].timeouts < MAX_RETRANSMITS {
      ResendKeepsOpening(key, c, v, now);
    }
  }

  lemma OpeningArrival(key: Key, c: Conn, v: View, seg: Segment, now: int)
    requires SynSentValid(c, v) || SynReceivedValid(c, v)
    ensures var (c', r) := Handle(key, c, seg, now);
            && SentWithin(Sent(r), 0)
            && (if c.state == SynSent && CompletesConnect(c, seg) then
                  c'.Synchronized() && c'.opt == Negotiate(ParseOptions(seg.options).value)
                else c'.opt == c.opt && (c.state == SynSent ==> c'.state == SynSent))
            && (c'.Synchronized() ==> c'.snd.pending == [])
  {
    hide RetireAcknowledged, ParseOptions, InitialCwnd, At, DecodePeerWindow, RttEstimator.Valid, Negotiate,
         ReceiveInvariant.OptValid, AdvertisedWindow, BuildSynAckOptions;
    if c.state == SynSent && CompletesConnect(c, seg) {
      var opt := Negotiate(ParseOptions(seg.options).value);
      RetireSyn(c.(remoteIsn := seg.seqno, remoteKnown := true, rcv := c.rcv.(nxt := At(seg.seqno, 1)),
                   opt := opt, cc := c.cc.(cwnd := InitialCwnd(opt.sendMss)), state := Established),
                true, v.ledger, now);
    } else if c.state == SynReceived {
      RetireSyn(c.(state := Established, rcv := c.rcv.(nxt := At(c.remoteIsn, 1)),
                   snd := c.snd.(una := c.localIsn, nxt := At(c.localIsn, 1))), false, v.ledger, now);
    }
  }

  // ---------------------------------------------------------------- runs

  lemma SentMore(a: seq<Segment>, b: seq<Segment>, n: nat, m: nat)
    requires SentWithin(a, n) && SentWithin(b, m) && n <= m
    ensures SentWithin(a + b, m)
  {
  }

  /** The size that holds for the rest of a run: settled, or settled by the SYN-ACK that completes the open. */
  function SizeFor(key: Key, c: Conn, inputs: seq<Input>): nat
    decreases |inputs|
  {
    if c.state != SynSent then c.opt.sendMss
    else if inputs == [] || c.removal then 0
    else if inputs[0].event.Deliver? && CompletesConnect(c, inputs[0].event.segment) then
      Admitted(ParseOptions(inputs[0].event.segment.options).value)
    else SizeFor(key, Step(key, c, inputs[0].event, inputs[0].now).0, inputs[1..])
  }

  predicate SizedAnyway(c: Conn) { if c.Synchronized() then Sized(c) else c.state == SynReceived ==> c.opt.sendMss > 0 }

  lemma ValidSizes(c: Conn, v: View)
    requires ConnValid(c, v)
    ensures c.state != SynSent ==> c.opt.sendMss > 0
  {
    hide SendValid, RecoveryValid, NoStall, RttEstimator.Valid, SynEntry;
  }

  lemma EventSized(key: Key, c: Conn, v: View, e: Event, now: int)
    requires ConnValid(c, v) && TimelyEvent(c, e) && SizedAnyway(c)
    ensures var (c', out) := Step(key, c, e, now);
            && (!c'.removal ==> SizedAnyway(c'))
            && SentWithin(out.sent, if c.Synchronized() then c.opt.sendMss else 0)
            && (c.state != SynSent ==> c'.opt == c.opt && (!c'.removal ==> c'.state != SynSent))
            && (c.state == SynSent && e.Deliver? && CompletesConnect(c, e.segment) ==>
                  c'.state != SynSent && c'.opt == Negotiate(ParseOptions(e.segment.options).value))
            && (c.state == SynSent && !(e.Deliver? && CompletesConnect(c, e.segment)) ==> c'.state == SynSent)
  {
    hide SyncValid, SynSentValid, SynReceivedValid, Step, AllWithin, TimelyEvent, Negotiate, ParseOptions, SentWithin,
         CompletesConnect, Genuine, StepView;
    var c', v' := Step(key, c, e, now).0, StepView(key, c, v, e, now);
    StepKeepsValid(key, c, v, e, now);
    if c.Synchronized() {
      StepSized(key, c, v, e, now);
      if !c'.removal {
        StillSynchronized(key, c, v, e, now);
        SyncState(c', v');
      }
    } else {
      OpeningSized(key, c, v, e, now);
      OpeningKind(key, c, v, e, now);
      NothingWithin(c'.opt.sendMss);
      if !c'.removal {
        ValidSizes(c', v');
      }
    }
  }

  lemma OpeningKind(key: Key, c: Conn, v: View, e: Event, now: int)
    requires SynSentValid(c, v) || SynReceivedValid(c, v)
    ensures (c.state == SynSent || c.state == SynReceived)
            && (c.state == SynReceived ==> Step(key, c, e, now).0.state != SynSent)
  {
    hide SynSentValid, SynReceivedValid, MakeOutgoingData, BeginClose, PollPersist, PollRetransmission,
         RetireAcknowledged, DecodePeerWindow, MakeSynAck, At;
    OpeningState(c, v);
    if e.Deliver? {
      RetireFrame(c.(state := Established, rcv := c.rcv.(nxt := At(c.remoteIsn, 1)),
                     snd := c.snd.(una := c.localIsn, nxt := At(c.localIsn, 1))), At(c.localIsn, 1), now);
    } else if e.PollRetransmissions? {
      OpeningPoll(key, c, v, now);
    } else {
      OpeningCalls(key, c, e, now);
    }
  }

  /** Over every run, nothing sent is larger than the settled size. */
  lemma {:induction false} RunSized(key: Key, c: Conn, v: View, inputs: seq<Input>)
    requires (c.removal || (ConnValid(c, v) && SizedAnyway(c))) && TimelyRun(key, c, inputs)
    ensures SentWithin(Run(key, c, inputs).1.sent, SizeFor(key, c, inputs))
    decreases |inputs|
  {
    hide ConnValid, Step, StepView, TimelyEvent, SizedAnyway, SentWithin, Negotiate, ParseOptions, CompletesConnect,
         Genuine;
    if inputs == [] || c.removal {
      NothingSent(SizeFor(key, c, inputs));
    } else {
      var i := inputs[0];
      var (c1, out) := Step(key, c, i.event, i.now);
      var v1 := StepView(key, c, v, i.event, i.now);
      StepKeepsValid(key, c, v, i.event, i.now);
      EventSized(key, c, v, i.event, i.now);
      RunSized(key, c1, v1, inputs[1..]);
      var n := SizeFor(key, c, inputs);
      if c1.removal {
        NothingSent(n);
      } else if c.state == SynSent && i.event.Deliver? && CompletesConnect(c, i.event.segment) {
        CompletesParsed(c, i.event.segment);
        NegotiationLaw(ParseOptions(i.event.segment.options).value);
      }
      SentMore(out.sent, Run(key, c1, inputs[1..]).1.sent, if c.Synchronized() then c.opt.sendMss else 0, n);
    }
  }

  lemma NothingSent(n: nat)
    ensures SentWithin([], n)
  {
  }

  lemma CompletesParsed(c: Conn, seg: Segment)
    requires CompletesConnect(c, seg)
    ensures ParseOptions(seg.options).Ok?
  {
  }

  /** A passive open: no segment of any run is larger than the MSS of the peer's SYN, or 536 without one. */
  lemma ListenSizes(key: Key, isn: u32, syn: Segment, now: int, inputs: seq<Input>)
    requires ParseOptions(syn.options).Ok?
    requires TimelyRun(key, Listen(key, isn, syn, ParseOptions(syn.options).value, now).0, inputs)
    ensures var o := ParseOptions(syn.options).value;
            SentWithin(Run(key, Listen(key, isn, syn, o, now).0, inputs).1.sent, Admitted(o))
  {
    hide ConnValid, Run, TimelyRun, ParseOptions, SentWithin, BuildSynAckOptions, AdvertisedWindow, InitialCwnd,
         Negotiate;
    var o := ParseOptions(syn.options).value;
    var c := Listen(key, isn, syn, o, now).0;
    ListenValid(key, isn, syn, now);
    NegotiationLaw(o);
    ValidSizes(c, OpeningView(isn, true, syn.seqno));
    RunSized(key, c, OpeningView(isn, true, syn.seqno), inputs);
  }

  /** The SYN-ACK that completes an active open, if the run has one. */
  function PeerSyn(key: Key, c: Conn, inputs: seq<Input>): Option<Segment>
    decreases |inputs|
  {
    if inputs == [] || c.removal || c.state != SynSent then None
    else if inputs[0].event.Deliver? && CompletesConnect(c, inputs[0].event.segment) then Some(inputs[0].event.segment)
    else PeerSyn(key, Step(key, c, inputs[0].event, inputs[0].now).0, inputs[1..])
  }

  lemma {:induction false} SizeIsAdmitted(key: Key, c: Conn, v: View, inputs: seq<Input>)
    requires (c.removal || ConnValid(c, v)) && TimelyRun(key, c, inputs) && c.state == SynSent && SizedAnyway(c)
    ensures var syn := PeerSyn(key, c, inputs);
            && (syn.Some? ==> ParseOptions(syn.value.options).Ok?)
            && SizeFor(key, c, inputs) == (if syn.Some? then Admitted(ParseOptions(syn.value.options).value) else 0)
    decreases |inputs|
  {
    hide ConnValid, Step, StepView, TimelyEvent, SizedAnyway, SentWithin, Negotiate, ParseOptions, CompletesConnect,
         Genuine;
    if inputs != [] && !c.removal {
      var i := inputs[0];
      if i.event.Deliver? && CompletesConnect(c, i.event.segment) {
        CompletesParsed(c, i.event.segment);
      } else {
        StepKeepsValid(key, c, v, i.event, i.now);
        EventSized(key, c, v, i.event, i.now);
        var c1 := Step(key, c, i.event, i.now).0;
        assert SizedAnyway(c1) by { OpenerIsSized(c1); }
        SizeIsAdmitted(key, c1, StepView(key, c, v, i.event, i.now), inputs[1..]);
      }
    }
  }

  lemma OpenerIsSized(c: Conn)
    requires c.state == SynSent
    ensures SizedAnyway(c)
  {
  }

  /** An active open: the same with the peer's SYN-ACK, and before it nothing carries payload. */
  lemma ConnectSizes(key: Key, isn: u32, now: int, inputs: seq<Input>)
    requires TimelyRun(key, Connect(key, isn, now).0, inputs)
    ensures var c := Connect(key, isn, now).0;
            var syn := PeerSyn(key, c, inputs);
            && (syn.Some? ==> ParseOptions(syn.value.options).Ok?)
            && SentWithin(Run(key, c, inputs).1.sent,
                          if syn.Some? then Admitted(ParseOptions(syn.value.options).value) else 0)
  {
    hide ConnValid, Run, TimelyRun, ParseOptions, SentWithin, BuildActiveSynOptions, AdvertisedWindow, SizeFor, PeerSyn;
    var c := Connect(key, isn, now).0;
    ConnectValid(key, isn, now);
    OpenerIsSized(c);
    SizeIsAdmitted(key, c, OpeningView(isn, false, 0), inputs);
    RunSized(key, c, OpeningView(isn, false, 0), inputs);
  }
}
