/**
 Round-trip samples over whole runs: Karn's rule and one sample per range, and the one resend
 that the rule misses.
 */
module RttSamples {
  import opened Primitives
  import opened SequenceSpace
  import opened TcpOptions
  import opened TcpSegments
  import opened TcpTypes
  import opened RttEstimator
  import opened CongestionControl
  import opened Sending
  import opened TcpEngine
  import opened PendingQueue
  import opened ConnInvariant
  import opened AckPhase
  import opened ReceivePhase
  import opened SendPhase
  import opened ConnSteps
  import opened CallSteps
  import opened ConnRuns
  import opened RecoveryEpisodes

  /** A range, named by its end, that gave a round-trip sample or was resent. */
  datatype Note = Sampled(end: nat) | Resent(end: nat)

  /** The position at or after `una` with a number. */
  function PositionAt(v: View, seqno: u32): nat { v.una + Sub(seqno, At(v.ledger.isn, v.una)) }

  /** The range whose acknowledgment by this event is measured. */
  function SampledBy(c: Conn, v: View, e: Event, now: int): Option<nat> {
    if !e.Deliver? || c.state == TimeWait then None
    else if c.Synchronized() then
      if AckAcceptable(c, e.segment) && Samples(c, e.segment.ackno, now)
      then Some(SampleEnd(c.snd.pending, v.una, e.segment.ackno)) else None
    else if |c.snd.pending| == 1 && Completes(c, e.segment) && SamplesSyn(c, now) then Some(1)
    else None
  }

  /** The segment completes the handshake. */
  predicate Completes(c: Conn, seg: Segment) {
    if c.state == SynSent then CompletesConnect(c, seg)
    else !seg.flags.rst && seg.flags.ack && !seg.flags.syn && CompletesAccept(c, seg)
  }

  /** The segment the event sends again, on a timeout or in recovery. */
  function ResentBy(key: Key, c: Conn, e: Event, now: int): Option<Segment> {
    if e.PollRetransmissions? then
      var r := PollRetransmission(key, c, now).1;
      if r.Resent? then Some(r.segment) else None
    else FastOf(key, c, e, now)
  }

  /** An acknowledgment is measured before anything is resent. */
  function StepNotes(key: Key, c: Conn, v: View, e: Event, now: int): seq<Note> {
    var v' := StepView(key, c, v, e, now);
    var sampled, resent := SampledBy(c, v, e, now), ResentBy(key, c, e, now);
    (if sampled.Some? then [Sampled(sampled.value)] else [])
    + (if resent.Some? then [Note.Resent(PositionAt(v', resent.value.seqno) + Consumed(resent.value))] else [])
  }

  function RunNotes(key: Key, c: Conn, v: View, inputs: seq<Input>): seq<Note>
    decreases |inputs|
  {
    if inputs == [] || c.removal then []
    else
      var i := inputs[0];
      StepNotes(key, c, v, i.event, i.now)
      + RunNotes(key, Step(key, c, i.event, i.now).0, StepView(key, c, v, i.event, i.now), inputs[1..])
  }

  // ---------------------------------------------------------------- what is measured

  /** The sample is the age of an entry that was never resent, the newest such entry the ACK touches. */
  lemma {:induction false} SampledEntry(pending: seq<Pending>, pos: nat, end: nat, l: Ledger, a: nat)
    requires Tiles(pending, pos, end, l) && pos <= a <= end <= pos + REACH
    requires Retire(pending, At(l.isn, a)).sample.Some?
    ensures exists i: nat | i < |pending| :: IsSample(pending, pos, At(l.isn, a), i)
    decreases |pending|
  {
    var e, next := pending[0], pos + pending[0].Length();
    CompareEntry(e, pos, a, l);
    TilesOrdered(pending[1..], next, end, l);
    if next <= a {
      SampleIsFresh(pending[1..], next, end, l, a);
      if Retire(pending[1..], At(l.isn, a)).sample.Some? {
        SampledEntry(pending[1..], next, end, l, a);
        var i: nat :| i < |pending[1..]| && IsSample(pending[1..], next, At(l.isn, a), i);
        assert IsSample(pending, pos, At(l.isn, a), i + 1);
      } else {
        assert IsSample(pending, pos, At(l.isn, a), 0);
      }
    } else {
      assert IsSample(pending, pos, At(l.isn, a), 0);
    }
  }

  predicate IsSample(pending: seq<Pending>, pos: nat, ack: u32, i: nat)
    requires i < |pending|
  {
    && Eligible(pending[i]) && PositionOf(pending, pos, i) + pending[i].Length() == SampleEnd(pending, pos, ack)
    && Retire(pending, ack).sample == Some(pending[i].firstSentAt)
  }

  /** No timeout and no recovery resent the entry that ends at `end`, and its age is what the estimator is given. */
  predicate Measures(c: Conn, v: View, end: nat, rtt: RttState, now: int, i: nat) {
    && i < |c.snd.pending| && Eligible(c.snd.pending[i]) && c.snd.pending[i].firstSentAt <= now
    && PositionOf(c.snd.pending, v.una, i) + c.snd.pending[i].Length() == end
    && Follows6298(c.rtt, now - c.snd.pending[i].firstSentAt, rtt)
  }

  lemma ProcessAckMeasures(key: Key, c: Conn, seg: Segment, blocks: seq<SackBlock>, now: int)
    ensures ProcessAck(key, c, seg, blocks, now).0.rtt == RetireAcknowledged(c, seg.ackno, now).0.rtt
  {
    hide RetireAcknowledged, ApplySack, UpdateSendWindow, OnAdvance, OnDuplicate, LocalFinAcked;
    RespondedRtt(key, c, seg, blocks, now);
  }

  lemma RetireMeasures(c: Conn, v: View, ack: u32, now: int)
    requires SendValid(c.snd, v) && RttEstimator.Valid(c.rtt) && SeqLessOrEqual(ack, c.snd.nxt)
    ensures var rtt := RetireAcknowledged(c, ack, now).0.rtt;
            if Samples(c, ack, now) then
              exists i: nat :: Measures(c, v, SampleEnd(c.snd.pending, v.una, ack), rtt, now, i)
            else rtt == c.rtt
  {
    hide Tiles, Retire, SampleEnd, RecordSample, At, QueueSplit, HistoryBelow, SeqLessOrEqual, SeqGreater, PositionOf,
         Follows6298, RttEstimator.Valid,
         Pending.Length;
    if Samples(c, ack, now) {
      AdvancingAckExact(c.snd, v, ack);
      FlightBound(c.snd, v);
      SampledEntry(c.snd.pending, v.una, v.nxt, v.ledger, v.una + Sub(ack, c.snd.una));
      var i: nat :| i < |c.snd.pending| && IsSample(c.snd.pending, v.una, ack, i);
      Law6298IsExact(c.rtt, now - c.snd.pending[i].firstSentAt, RetireAcknowledged(c, ack, now).0.rtt);
      assert Measures(c, v, SampleEnd(c.snd.pending, v.una, ack), RetireAcknowledged(c, ack, now).0.rtt, now, i);
    }
  }

  lemma SynchronizedMeasures(key: Key, c: Conn, v: View, seg: Segment, now: int)
    requires SyncValid(c, v) && c.state != TimeWait
    ensures var rtt, s := HandleSynchronized(key, c, seg, now).0.rtt, SampledBy(c, v, Deliver(seg), now);
            if s.Some? then exists i: nat :: Measures(c, v, s.value, rtt, now, i) else rtt == c.rtt
  {
    hide CoreValid, NoStall, ProcessAck, AfterAck, ParseOptions, MakePureAck, SeqLessOrEqual, Samples, SampleEnd,
         Measures, StateOf, RetireAcknowledged;
    if AckAcceptable(c, seg) {
      var blocks := ParseOptions(seg.options).value.sackBlocks;
      var (c1, fast) := ProcessAck(key, c, seg, blocks, now);
      CoreHasSend(c, v);
      SyncParts(c, v);
      RetireMeasures(c, v, seg.ackno, now);
      ProcessAckMeasures(key, c, seg, blocks, now);
      AfterAckFrame(key, c1, seg, fast, now);
    }
  }

  /** The acknowledgment of the SYN or SYN-ACK gives a sample exactly when no timeout resent it. */
  lemma OpeningMeasures(key: Key, c: Conn, v: View, seg: Segment, now: int)
    requires SynSentValid(c, v) || SynReceivedValid(c, v)
    ensures var rtt, s := Handle(key, c, seg, now).0.rtt, SampledBy(c, v, Deliver(seg), now);
            if s.Some? then Measures(c, v, s.value, rtt, now, 0) else rtt == c.rtt
  {
    hide RecordSample, Follows6298, ParseOptions, InitialCwnd, MakeSegment, MakeSynAck, DecodePeerWindow,
         RttEstimator.Valid, ReceiveInvariant.OptValid, BuildSynAckOptions, At;
    RetiredSyn(c, c.localIsn, At(c.localIsn, 1), now);
    OpeningEstimator(c, v);
    if SamplesSyn(c, now) {
      var age := now - c.snd.pending[0].firstSentAt;
      Law6298IsExact(c.rtt, age, RecordSample(c.rtt, age));
    }
  }

  lemma OpeningEstimator(c: Conn, v: View)
    requires SynSentValid(c, v) || SynReceivedValid(c, v)
    ensures RttEstimator.Valid(c.rtt) && |c.snd.pending| == 1
  {
  }

  /** Retirement of the only entry of a connection that is being opened. */
  lemma RetiredSyn(c: Conn, isn: u32, ack: u32, now: int)
    requires |c.snd.pending| == 1 && c.snd.pending[0].start == isn && c.snd.pending[0].Length() == 1
             && ack == At(isn, 1)
    ensures SeqGreater(ack, isn) && Retire(c.snd.pending, ack).sample
            == (if Eligible(c.snd.pending[0]) then Some(c.snd.pending[0].firstSentAt) else None)
  {
    AtZero(isn);
    ComparePositions(isn, 1, 0);
    ComparePositions(isn, 1, 1);
    assert c.snd.pending[1..] == [];
  }

  /**
   The smoothed time and its variation change exactly by the samples: one is given only the age
   of an entry that no timeout and no recovery resent and that was not measured before.
   */
  lemma StepMeasures(key: Key, c: Conn, v: View, e: Event, now: int)
    requires ConnValid(c, v)
    ensures var rtt, s := Step(key, c, e, now).0.rtt, SampledBy(c, v, e, now);
            if s.Some? then exists i: nat :: Measures(c, v, s.value, rtt, now, i) else rtt == c.rtt.(rto := rtt.rto)
  {
    hide SyncValid, SynSentValid, SynReceivedValid, Measures, HandleSynchronized, HandleSynSent, HandleSynReceived,
         Schedule, Sent, SendCheck, MaybeSequenceFin, UpdatePersist, ResendOldest, Pending.Deadline, PersistEligible,
         MakeSegment, MakePureAck;
    match e {
      case Deliver(seg) =>
        if c.state == SynSent || c.state == SynReceived {
          OpeningMeasures(key, c, v, seg, now);
        } else if c.state != TimeWait {
          SynchronizedMeasures(key, c, v, seg, now);
        }
      case Write(payload) =>
        ScheduleFrame(key, Enqueue(c, payload), now);
      case Close =>
        FinFrame(key, Requested(c), now);
        UpdatePersistFrame(MaybeSequenceFin(key, Requested(c), now).0, now);
      case PollRetransmissions =>
        if c.snd.pending != [] {
          ResendFrame(key, c, now);
        }
      case PollProbes =>
    }
  }

  // ---------------------------------------------------------------- what goes on record

  /** A measured range ends beyond every range measured before and was never resent. */
  predicate SampleRecorded(end: nat, l: Ledger, l': Ledger) {
    end > l.sampledEnd && end !in l.resent && l'.sampledEnd == end
  }

  lemma SynchronizedSample(key: Key, c: Conn, v: View, seg: Segment, now: int)
    requires SyncValid(c, v) && c.state != TimeWait && AckAcceptable(c, seg) && Samples(c, seg.ackno, now)
    requires Timely(c.rcv, c.opt, seg)
    ensures SampleRecorded(SampleEnd(c.snd.pending, v.una, seg.ackno), v.ledger,
                           SynchronizedView(key, c, v, seg, now).ledger)
  {
    hide SyncValid, CoreValid, StepState, ProcessAck, AfterAck, AfterAckView, FastOk, ParseOptions, Timely,
         SeqLessOrEqual, ProcessAckView, RetireAcknowledged, SampleEnd, Samples, Responded, RecoveryValid, SendValid;
    var blocks := ParseOptions(seg.options).value.sackBlocks;
    var (c1, fast) := ProcessAck(key, c, seg, blocks, now);
    var v1 := ProcessAckView(c, v, seg, blocks, now);
    SyncParts(c, v);
    RetireMeaning(c, v, seg.ackno, now);
    SampledEnd(c, v, seg.ackno, now);
    RespondedIsOk(key, c, v, seg, blocks, now);
    ProcessAckKeepsValid(key, c, v, seg, blocks, now);
    FastIsResend(fast, c.rcv.nxt, c.cc.inRecovery, v.ledger.episode, v1);
    AfterAckKeepsValid(key, c1, v1, seg, fast, now);
  }

  lemma SyncParts(c: Conn, v: View)
    requires SyncValid(c, v)
    ensures SendValid(c.snd, v) && RecoveryValid(c, v) && RttEstimator.Valid(c.rtt)
  {
  }

  lemma SampledEnd(c: Conn, v: View, ack: u32, now: int)
    requires Samples(c, ack, now)
    ensures AckView(c, v, ack, now).ledger.sampledEnd == SampleEnd(c.snd.pending, v.una, ack)
  {
  }

  lemma OpeningSample(c: Conn, v: View, seg: Segment, now: int)
    requires SynSentValid(c, v) || SynReceivedValid(c, v)
    requires Completes(c, seg) && SamplesSyn(c, now)
    ensures SampleRecorded(1, v.ledger,
                           (if c.state == SynSent then SynSentView(c, v, seg, now)
                            else SynReceivedView(c, v, seg, now)).ledger)
  {
    hide ParseOptions, RttEstimator.Valid, ReceiveInvariant.OptValid, InitialCwnd, At;
  }

  lemma StepSample(key: Key, c: Conn, v: View, e: Event, now: int)
    requires ConnValid(c, v) && TimelyEvent(c, e) && SampledBy(c, v, e, now).Some?
    ensures SampleRecorded(SampledBy(c, v, e, now).value, v.ledger, StepView(key, c, v, e, now).ledger)
  {
    hide SyncValid, SynSentValid, SynReceivedValid, Timely, SynSentView, SynReceivedView, SynchronizedView, SamplesSyn,
         Samples, SampleEnd, SampleRecorded, CompletesConnect, CompletesAccept, ParseOptions, SeqLessOrEqual;
    if c.state == SynSent || c.state == SynReceived {
      OpeningSample(c, v, e.segment, now);
    } else {
      SynchronizedSample(key, c, v, e.segment, now);
    }
  }

  lemma PositionIs(v: View, p: nat)
    requires v.una <= p < v.una + MODULUS
    ensures PositionAt(v, At(v.ledger.isn, p)) == p
  {
    SubOfPositions(v.ledger.isn, p, v.una);
  }

  lemma StepResend(key: Key, c: Conn, v: View, e: Event, now: int)
    requires ConnValid(c, v) && TimelyEvent(c, e) && ResentBy(key, c, e, now).Some?
    ensures var seg, v' := ResentBy(key, c, e, now).value, StepView(key, c, v, e, now);
            PositionAt(v', seg.seqno) + Consumed(seg) in v'.ledger.resent
  {
    hide ConnValid, TimelyEvent, PollRetransmission, PollView, PositionAt, At, FastOf, HandleView, SendView, CloseView,
         Step;
    var seg, v' := ResentBy(key, c, e, now).value, StepView(key, c, v, e, now);
    StepKeepsValid(key, c, v, e, now);
    if e.PollRetransmissions? {
      PollKeepsValid(key, c, v, now);
      PositionIs(v', v.una);
    } else {
      StepEpisode(key, c, v, e, now);
      var p: nat :| RecordedAt(seg, c.rcv.nxt, v', p);
      PositionIs(v', p);
    }
  }

  // ---------------------------------------------------------------- whole runs

  /** Nothing is measured that was resent before, and nothing is measured twice. */
  predicate Karn(notes: seq<Note>) {
    forall i, j | 0 <= i < j < |notes| && notes[j].Sampled? ::
      if notes[i].Sampled? then notes[i].end < notes[j].end else notes[i].end != notes[j].end
  }

  /** What the notes add to a history. */
  predicate After(notes: seq<Note>, l: Ledger) {
    forall n | n in notes && n.Sampled? :: n.end > l.sampledEnd && n.end !in l.resent
  }

  predicate Recorded(notes: seq<Note>, l: Ledger) {
    forall n | n in notes :: if n.Sampled? then n.end <= l.sampledEnd else n.end in l.resent
  }

  lemma KarnConcat(a: seq<Note>, b: seq<Note>, l: Ledger, l': Ledger)
    requires Karn(a) && Karn(b) && After(a, l) && Recorded(a, l') && After(b, l') && Remembers(l, l')
    ensures Karn(a + b) && After(a + b, l)
  {
    var notes := a + b;
    forall i, j | 0 <= i < j < |notes| && notes[j].Sampled?
      ensures if notes[i].Sampled? then notes[i].end < notes[j].end else notes[i].end != notes[j].end
    {
      if i < |a| <= j {
        assert notes[i] in a && notes[j] in b;
      }
    }
  }

  lemma StepKarn(key: Key, c: Conn, v: View, e: Event, now: int)
    requires ConnValid(c, v) && TimelyEvent(c, e)
    ensures var notes := StepNotes(key, c, v, e, now);
            Karn(notes) && After(notes, v.ledger) && Recorded(notes, StepView(key, c, v, e, now).ledger)
  {
    hide ConnValid, TimelyEvent, SampledBy, ResentBy, StepView, PositionAt, Consumed;
    if SampledBy(c, v, e, now).Some? {
      StepSample(key, c, v, e, now);
    }
    if ResentBy(key, c, e, now).Some? {
      StepResend(key, c, v, e, now);
    }
  }

  lemma NothingNoted(l: Ledger)
    ensures Karn([]) && After([], l)
  {
  }

  /**
   Karn's rule over every run: no range is measured after a timeout or a recovery has resent it,
   and the ends of the measured ranges strictly increase.
   */
  lemma {:induction false} RunKarn(key: Key, c: Conn, v: View, inputs: seq<Input>)
    requires (c.removal || ConnValid(c, v)) && TimelyRun(key, c, inputs)
    ensures Karn(RunNotes(key, c, v, inputs)) && After(RunNotes(key, c, v, inputs), v.ledger)
    decreases |inputs|
  {
    hide ConnValid, TimelyEvent, Step, StepView, StepNotes, Karn, After, Recorded, Remembers;
    if inputs == [] || c.removal {
      NothingNoted(v.ledger);
    } else {
      var i := inputs[0];
      var c1, v1 := Step(key, c, i.event, i.now).0, StepView(key, c, v, i.event, i.now);
      StepKeepsValid(key, c, v, i.event, i.now);
      StepKarn(key, c, v, i.event, i.now);
      RunKarn(key, c1, v1, inputs[1..]);
      KarnConcat(StepNotes(key, c, v, i.event, i.now), RunNotes(key, c1, v1, inputs[1..]), v.ledger, v1.ledger);
    }
  }

  // ---------------------------------------------------------------- the exception

  /**
   A SYN-ACK that is repeated because its SYN came again stays eligible: the second copy is sent,
   and the final ACK is measured from the first one exactly as if there had been no second.
   */
  lemma RepeatedSynAckIsMeasured(key: Key, c: Conn, v: View, syn: Segment, ack: Segment, soon: int, now: int)
    requires SynReceivedValid(c, v) && Completes(c, ack)
    requires syn.flags.syn && !syn.flags.ack && !syn.flags.rst && syn.seqno == c.remoteIsn
    ensures var (c1, r) := Handle(key, c, syn, soon);
            && r.reply == Some(MakeSynAck(key, c)) && SynReceivedValid(c1, v)
            && SampledBy(c1, v, Deliver(ack), now) == SampledBy(c, v, Deliver(ack), now)
            && (SampledBy(c, v, Deliver(ack), now).Some?
                <==> !c.snd.pending[0].resent && c.snd.pending[0].firstSentAt <= now)
            && Handle(key, c1, ack, now).0.rtt == Handle(key, c, ack, now).0.rtt
  {
    hide RecordSample, InitialCwnd, MakeSynAck, DecodePeerWindow, RttEstimator.Valid, ReceiveInvariant.OptValid, At;
    RetiredSyn(c, c.localIsn, At(c.localIsn, 1), now);
    var c1 := Handle(key, c, syn, soon).0;
    RetiredSyn(c1, c.localIsn, At(c.localIsn, 1), now);
  }
}
