/**
 Recovery episodes over whole runs: from the third duplicate ACK until recovery is left, no
 sequence number is resent twice.
 */
module RecoveryEpisodes {
  import opened Primitives
  import opened SequenceSpace
  import opened TcpOptions
  import opened TcpSegments
  import opened TcpTypes
  import opened CongestionControl
  import opened Sending
  import opened TcpEngine
  import opened PendingQueue
  import opened ConnInvariant
  import opened AckPhase
  import opened ReceivePhase
  import opened SendPhase
  import opened ConnSteps
  import opened CallSteps
  import opened ConnRuns

  /** The immediate resend an event causes. */
  function FastOf(key: Key, c: Conn, e: Event, now: int): Option<Segment> {
    if e.Deliver? then Handle(key, c, e.segment, now).1.fastRetransmit else None
  }

  /** What one event does to an episode. */
  ghost predicate EpisodeStep(c: Conn, v: View, c': Conn, fast: Option<Segment>, v': View) {
    && EpisodeKept(c.cc, v, c'.cc, fast, v')
    && FastOk(fast, c.rcv.nxt, c.cc.inRecovery, v.ledger.episode, v')
  }

  // ---------------------------------------------------------------- what leaves an episode alone

  predicate SameEpisode(v: View, v': View) { v'.point == v.point && v'.ledger.episode == v.ledger.episode }

  lemma NoEpisodeStep(c: Conn, v: View, c': Conn, v': View)
    requires SameEpisode(v, v') || !c'.cc.inRecovery
    ensures EpisodeStep(c, v, c', None, v')
  {
  }

  lemma ScheduleEpisode(key: Key, c: Conn, v: View, now: int)
    ensures Schedule(key, c, now).0.cc == c.cc && SameEpisode(v, ScheduleView(key, c, v, now))
  {
    hide ScheduleData, MaybeSequenceFin, SequencesFin, ToSend;
    ScheduleFrame(key, c, now);
  }

  /** What follows acknowledgment processing is no congestion event and takes no sample. */
  lemma AfterAckFrame(key: Key, c: Conn, seg: Segment, fast: Option<Segment>, now: int)
    ensures var (c', r) := AfterAck(key, c, seg, fast, now);
            c'.cc == c.cc && c'.rtt == c.rtt && c'.opt == c.opt && r.fastRetransmit == fast
  {
    hide Receive, Schedule, UpdatePersist, Absorbs, AfterAck;
    AfterAckCases(key, c, seg, fast, now);
    var c0 := if Absorbs(c, seg) then Receive(c, seg, now).conn else c;
    ReceiveFrame(c, seg, now);
    UpdatePersistFrame(c0, now);
    ScheduleFrame(key, c0, now);
  }

  lemma ScheduleFrame(key: Key, c: Conn, now: int)
    ensures var c' := Schedule(key, c, now).0; c'.cc == c.cc && c'.rtt == c.rtt && c'.opt == c.opt
  {
    hide ScheduleData, MaybeSequenceFin;
    ScheduleDataFrame(key, c, now);
    FinFrame(key, ScheduleData(key, c, now).0, now);
  }

  lemma UpdatePersistFrame(c: Conn, now: int)
    ensures var c' := UpdatePersist(c, now); c' == c.(persist := c'.persist)
  {
  }

  lemma ReceiveFrame(c: Conn, seg: Segment, now: int)
    ensures var c' := Receive(c, seg, now).conn; c'.cc == c.cc && c'.rtt == c.rtt && c'.opt == c.opt
  {
    hide Released, Receive;
    ReceiveCases(c, seg, now);
  }

  // ---------------------------------------------------------------- every event

  lemma FastOkLater(fast: Option<Segment>, ackno: u32, continuing: bool, before: set<nat>, v: View, v': View)
    requires FastOk(fast, ackno, continuing, before, v)
    requires v'.una == v.una && v.nxt <= v'.nxt && v'.ledger == v.ledger && v'.point == v.point
    ensures FastOk(fast, ackno, continuing, before, v')
  {
    hide ResendOf;
    if fast.Some? {
      var p: nat :| RecordedAt(fast.value, ackno, v, p) && (continuing ==> p !in before);
      ResendLater(fast.value, ackno, v, v', p);
      assert RecordedAt(fast.value, ackno, v', p);
    }
  }

  lemma SynchronizedEpisode(key: Key, c: Conn, v: View, seg: Segment, now: int)
    requires SyncValid(c, v) && c.state != TimeWait && (!seg.flags.rst ==> Timely(c.rcv, c.opt, seg))
    ensures var (c', r) := HandleSynchronized(key, c, seg, now);
            EpisodeStep(c, v, c', r.fastRetransmit, SynchronizedView(key, c, v, seg, now))
  {
    hide SyncValid, CoreValid, StepState, ProcessAck, AfterAck, AfterAckView, ProcessAckView, FastOk, ParseOptions,
         MakePureAck, Timely, SeqLessOrEqual, OnlyAck, IsGenuine, Sent;
    if AckAcceptable(c, seg) {
      var blocks := ParseOptions(seg.options).value.sackBlocks;
      var (c1, fast) := ProcessAck(key, c, seg, blocks, now);
      var v1 := ProcessAckView(c, v, seg, blocks, now);
      ProcessAckKeepsValid(key, c, v, seg, blocks, now);
      FastIsResend(fast, c.rcv.nxt, c.cc.inRecovery, v.ledger.episode, v1);
      AfterAckKeepsValid(key, c1, v1, seg, fast, now);
      AfterAckFrame(key, c1, seg, fast, now);
      FastOkLater(fast, c.rcv.nxt, c.cc.inRecovery, v.ledger.episode, v1, AfterAckView(key, c1, v1, seg, now));
    } else {
      NoEpisodeStep(c, v, HandleSynchronized(key, c, seg, now).0, v);
    }
  }

  lemma OpeningEpisode(key: Key, c: Conn, v: View, seg: Segment, now: int)
    requires SynSentValid(c, v) || SynReceivedValid(c, v)
    ensures var (c', r) := Handle(key, c, seg, now); !c'.cc.inRecovery && r.fastRetransmit.None?
  {
    hide RetireAcknowledged, ParseOptions, InitialCwnd, MakeSegment, MakeSynAck, At, DecodePeerWindow,
         RttEstimator.Valid, ReceiveInvariant.OptValid, SynEntry;
    if ParseOptions(seg.options).Ok? {
      var opt := Negotiate(ParseOptions(seg.options).value);
      RetireFrame(c.(remoteIsn := seg.seqno, remoteKnown := true, rcv := c.rcv.(nxt := At(seg.seqno, 1)),
                     opt := opt, cc := c.cc.(cwnd := InitialCwnd(opt.sendMss)), state := Established), seg.ackno, now);
    }
    RetireFrame(c.(state := Established, rcv := c.rcv.(nxt := At(c.remoteIsn, 1)),
                   snd := c.snd.(una := c.localIsn, nxt := At(c.localIsn, 1))), At(c.localIsn, 1), now);
  }

  /** Every event: a resend is new to a continuing episode, whose record is never lost. */
  lemma StepEpisode(key: Key, c: Conn, v: View, e: Event, now: int)
    requires ConnValid(c, v) && TimelyEvent(c, e)
    ensures EpisodeStep(c, v, Step(key, c, e, now).0, FastOf(key, c, e, now), StepView(key, c, v, e, now))
  {
    hide SyncValid, SynSentValid, SynReceivedValid, EpisodeStep, Timely, HandleSynchronized, HandleTimeWait,
         HandleSynSent, HandleSynReceived, SynSentView, SynReceivedView, SynchronizedView, Schedule, ScheduleView, Sent,
         SendCheck, MaybeSequenceFin, UpdatePersist, SequencesFin, ResendOldest, Pending.Deadline, PersistEligible,
         MakeSegment, Pending.Length;
    var c', v' := Step(key, c, e, now).0, StepView(key, c, v, e, now);
    match e {
      case Deliver(seg) =>
        if c.state == SynSent || c.state == SynReceived {
          OpeningEpisode(key, c, v, seg, now);
          NoEpisodeStep(c, v, c', v');
        } else if c.state == TimeWait {
          assert HandleTimeWait(key, c, seg, now).1.fastRetransmit.None? by {
            TimeWaitResendsNothing(key, c, seg, now);
          }
          NoEpisodeStep(c, v, c', v');
        } else {
          SynchronizedEpisode(key, c, v, seg, now);
        }
      case Write(payload) =>
        ScheduleEpisode(key, Enqueue(c, payload), EnqueueView(v, payload), now);
        NoEpisodeStep(c, v, c', v');
      case Close =>
        NoEpisodeStep(c, v, c', v');
      case PollRetransmissions =>
        PollEpisode(key, c, v, now);
        NoEpisodeStep(c, v, c', v');
      case PollProbes =>
        NoEpisodeStep(c, v, c', v');
    }
  }

  lemma TimeWaitResendsNothing(key: Key, c: Conn, seg: Segment, now: int)
    ensures HandleTimeWait(key, c, seg, now).1.fastRetransmit.None?
  {
    hide MakePureAck;
  }

  /** A timeout of data ends the episode; one of a SYN or a FIN leaves it alone. */
  lemma PollEpisode(key: Key, c: Conn, v: View, now: int)
    ensures SameEpisode(v, PollView(c, v, now)) || !PollRetransmission(key, c, now).0.cc.inRecovery
  {
    hide ResendOldest, Collapse, Pending.Deadline, Pending.Length;
    if c.snd.pending != [] {
      ResendFrame(key, c, now);
      assert !Collapse(c.cc, c.opt.sendMss, Flight(c.snd)).inRecovery by {
        CollapseLeaves(c.cc, c.opt.sendMss, Flight(c.snd));
      }
    }
  }

  lemma CollapseLeaves(cc: Congestion, smss: nat, flight: nat)
    ensures !Collapse(cc, smss, flight).inRecovery
  {
  }

  // ---------------------------------------------------------------- whole episodes

  /** The immediate resends of a run, in order. */
  function FastResends(key: Key, c: Conn, inputs: seq<Input>): seq<Segment>
    decreases |inputs|
  {
    if inputs == [] || c.removal then []
    else
      var i := inputs[0];
      Lone(FastOf(key, c, i.event, i.now)) + FastResends(key, Step(key, c, i.event, i.now).0, inputs[1..])
  }

  /** The run belongs to one episode: every event leaves the connection in recovery. */
  predicate OneEpisode(key: Key, c: Conn, inputs: seq<Input>)
    decreases |inputs|
  {
    inputs == [] || c.removal
    || var c1 := Step(key, c, inputs[0].event, inputs[0].now).0; c1.cc.inRecovery && OneEpisode(key, c1, inputs[1..])
  }

  predicate DistinctNumbers(segs: seq<Segment>) {
    forall i, j | 0 <= i < j < |segs| :: segs[i].seqno != segs[j].seqno
  }

  /** The segment stands before the recovery point, at a position that the episode has not resent. */
  ghost predicate NewTo(seg: Segment, v: View) {
    exists p: nat :: v.una <= p < v.point && seg.seqno == At(v.ledger.isn, p) && p !in v.ledger.episode
  }

  lemma NewToEarlier(seg: Segment, v: View, v': View)
    requires NewTo(seg, v') && Extends(v, v') && v'.point == v.point && v.ledger.episode <= v'.ledger.episode
    ensures NewTo(seg, v)
  {
    var p: nat :| v'.una <= p < v'.point && seg.seqno == At(v'.ledger.isn, p) && p !in v'.ledger.episode;
  }

  lemma FastIsNew(seg: Segment, ackno: u32, v: View, v': View)
    requires FastOk(Some(seg), ackno, true, v.ledger.episode, v')
    requires Extends(v, v') && v'.point == v.point
    ensures NewTo(seg, v)
  {
    var p: nat :| RecordedAt(seg, ackno, v', p) && p !in v.ledger.episode;
  }

  /** A recorded resend and one that is new to the record have different numbers. */
  lemma RecordedDiffers(seg: Segment, later: Segment, ackno: u32, v: View)
    requires FastOk(Some(seg), ackno, false, {}, v) && NewTo(later, v) && v.point <= v.una + REACH
    ensures seg.seqno != later.seqno
  {
    var p: nat :| RecordedAt(seg, ackno, v, p);
    var q: nat :| v.una <= q < v.point && later.seqno == At(v.ledger.isn, q) && q !in v.ledger.episode;
    ComparePositions(v.ledger.isn, p, q);
  }

  lemma PointIsNear(c: Conn, v: View)
    requires ConnValid(c, v) && c.cc.inRecovery
    ensures v.point <= v.una + REACH
  {
    hide SendValid, RecvValid, NoStall, RttEstimator.Valid, SynEntry, ReceiveInvariant.OptValid;
    FlightIsNear(c, v);
  }

  lemma DistinctCons(fast: Option<Segment>, rest: seq<Segment>)
    requires DistinctNumbers(rest) && (fast.Some? ==> forall s | s in rest :: fast.value.seqno != s.seqno)
    ensures DistinctNumbers(Lone(fast) + rest)
  {
  }

  /** The rest of an episode resends only what the episode has not resent before. */
  lemma {:induction false} EpisodeGoesOn(key: Key, c: Conn, v: View, inputs: seq<Input>)
    requires c.removal || (ConnValid(c, v) && c.cc.inRecovery)
    requires TimelyRun(key, c, inputs) && OneEpisode(key, c, inputs)
    ensures DistinctNumbers(FastResends(key, c, inputs))
    ensures forall s | s in FastResends(key, c, inputs) :: NewTo(s, v)
    decreases |inputs|
  {
    hide ConnValid, Step, StepView, Extends, FastOk, NewTo, TimelyEvent, FastOf, DistinctNumbers;
    if inputs != [] && !c.removal {
      var i := inputs[0];
      var c1, v1, fast := Step(key, c, i.event, i.now).0, StepView(key, c, v, i.event, i.now),
        FastOf(key, c, i.event, i.now);
      StepKeepsValid(key, c, v, i.event, i.now);
      StepEpisode(key, c, v, i.event, i.now);
      EpisodeGoesOn(key, c1, v1, inputs[1..]);
      var rest := FastResends(key, c1, inputs[1..]);
      FirstAndRest(c1, v1, fast, c.rcv.nxt, c.cc.inRecovery, v.ledger.episode, rest);
      forall s | s in Lone(fast) + rest
        ensures NewTo(s, v)
      {
        if s in rest {
          NewToEarlier(s, v, v1);
        } else {
          FastIsNew(s, c.rcv.nxt, v, v1);
        }
      }
    } else {
      assert FastResends(key, c, inputs) == [];
      assert DistinctNumbers([]) by { NothingRepeats(); }
    }
  }

  lemma NothingRepeats()
    ensures DistinctNumbers([])
  {
  }

  lemma FirstAndRest(c: Conn, v: View, fast: Option<Segment>, ackno: u32, continuing: bool, before: set<nat>,
                     rest: seq<Segment>)
    requires FastOk(fast, ackno, continuing, before, v) && DistinctNumbers(rest)
             && (forall s | s in rest :: NewTo(s, v))
    requires c.removal ==> rest == []
    requires !c.removal ==> ConnValid(c, v) && c.cc.inRecovery
    ensures DistinctNumbers(Lone(fast) + rest)
  {
    hide ConnValid, DistinctNumbers, NewTo, RecordedAt;
    if fast.Some? && !c.removal {
      PointIsNear(c, v);
      assert FastOk(fast, ackno, false, {}, v);
      forall s | s in rest
        ensures fast.value.seqno != s.seqno
      {
        RecordedDiffers(fast.value, s, ackno, v);
      }
    }
    DistinctCons(fast, rest);
  }

  /**
   Within one recovery episode no sequence number is resent twice, whatever arrives and whatever
   the application and the timers do in between.  An entry keeps its number until a partial ACK
   cuts it, so only an entry that was cut can be resent again, from its new start.
   */
  lemma NothingResentTwice(key: Key, c: Conn, v: View, inputs: seq<Input>)
    requires ConnValid(c, v) && TimelyRun(key, c, inputs) && OneEpisode(key, c, inputs)
    ensures DistinctNumbers(FastResends(key, c, inputs))
  {
    hide ConnValid, Step, StepView, Extends, FastOk, NewTo, TimelyEvent, FastOf, DistinctNumbers;
    if inputs == [] || c.removal {
      NothingRepeats();
    } else {
      var i := inputs[0];
      var c1, v1, fast := Step(key, c, i.event, i.now).0, StepView(key, c, v, i.event, i.now),
        FastOf(key, c, i.event, i.now);
      StepKeepsValid(key, c, v, i.event, i.now);
      StepEpisode(key, c, v, i.event, i.now);
      EpisodeGoesOn(key, c1, v1, inputs[1..]);
      FirstAndRest(c1, v1, fast, c.rcv.nxt, c.cc.inRecovery, v.ledger.episode, FastResends(key, c1, inputs[1..]));
    }
  }
}
