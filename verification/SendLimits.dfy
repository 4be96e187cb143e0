/**
 How much is sent: new data never passes the peer's window nor the congestion window, and what
 the windows allow is not held back.
 */
module SendLimits {
  import opened Primitives
  import opened SequenceSpace
  import opened TcpOptions
  import opened TcpSegments
  import opened TcpTypes
  import opened Sending
  import opened TcpEngine
  import opened PendingQueue
  import opened ConnInvariant
  import opened AckPhase
  import opened ReceivePhase
  import opened SendPhase
  import opened ConnSteps
  import opened CallSteps
  import opened ConnRuns

  /** The bytes a data pass takes from the queue, against both windows. */
  lemma PassWithinWindows(key: Key, c: Conn, now: int)
    ensures var c' := ScheduleData(key, c, now).0;
            var sent := |c.snd.unsent| - |c'.snd.unsent|;
            && 0 <= sent && (sent > 0 ==> Flight(c.snd) + sent <= c.snd.wnd && Flight(c.snd) + sent <= c.cc.cwnd)
            && (c'.snd.unsent != [] ==>
                  Flight(c.snd) + sent >= Min(c.snd.wnd, c.cc.cwnd) || sent == 128 * c.opt.sendMss)
  {
    hide Flight, Segments, Entries;
  }

  /** The position after the last data byte that has been sequenced. */
  function DataEnd(v: View): int { Min(v.nxt, 1 + |v.ledger.stream|) }

  /** New data stays within both windows, and a new FIN within the peer's. */
  predicate WithinWindows(c': Conn, v: View, v': View) {
    && (DataEnd(v') > DataEnd(v) ==> DataEnd(v') - v'.una <= Min(c'.snd.wnd, c'.cc.cwnd))
    && (v'.finSent && !v.finSent ==> v'.nxt - v'.una <= c'.snd.wnd)
  }

  /** Queued data waits only for a window, or after 128 full segments at once; a FIN waits for data or the peer. */
  predicate NothingHeldBack(c': Conn, v: View, v': View) {
    !v'.finSent ==>
      && (c'.snd.unsent != [] ==>
            v'.nxt - v'.una >= Min(c'.snd.wnd, c'.cc.cwnd) || DataEnd(v') - DataEnd(v) == 128 * c'.opt.sendMss)
      && (c'.snd.unsent == [] && c'.snd.closeRequested ==> v'.nxt - v'.una >= c'.snd.wnd)
  }

  // ---------------------------------------------------------------- one pass

  lemma DataPass(key: Key, c: Conn, v: View, now: int)
    requires SendValid(c.snd, v) && !v.finSent
    ensures var c' := ScheduleData(key, c, now).0;
            var v' := DataView(c, v);
            && v'.nxt - v.nxt == |c.snd.unsent| - |c'.snd.unsent| && DataEnd(v') == v'.nxt && DataEnd(v) == v.nxt
            && c' == c.(snd := c'.snd) && c'.snd.wnd == c.snd.wnd && c'.snd.closeRequested == c.snd.closeRequested
            && Flight(c.snd) == v.nxt - v.una
  {
    hide Tiles, Segments, Entries, HistoryBelow, AvailableSendWindow, AvailableCongestionWindow;
    FlightBound(c.snd, v);
    ToSendBound(c);
    ScheduleDataFrame(key, c, now);
  }

  lemma FinPass(key: Key, c: Conn, v: View, now: int)
    requires SendValid(c.snd, v) && !v.finSent && c.snd.unsent == []
    ensures var c', v' := MaybeSequenceFin(key, c, now).0, FinView(c, v);
            && c'.snd.wnd == c.snd.wnd && c'.cc == c.cc && c'.opt == c.opt && c'.snd.unsent == []
            && c'.snd.closeRequested == c.snd.closeRequested && v'.una == v.una && DataEnd(v') == DataEnd(v)
            && (v'.finSent ==> v'.nxt == v.nxt + 1 && v'.nxt - v'.una <= c.snd.wnd)
            && (!v'.finSent ==> v' == v && (c.snd.closeRequested ==> v.nxt - v.una >= c.snd.wnd))
  {
    hide Tiles, HistoryBelow, MakeFin;
    FlightBound(c.snd, v);
  }

  lemma PassIsLimited(key: Key, c: Conn, v: View, now: int)
    requires CoreValid(c, v) && !v.finSent
    ensures var c', v' := Schedule(key, c, now).0, ScheduleView(key, c, v, now);
            WithinWindows(c', v, v') && NothingHeldBack(c', v, v')
  {
    hide CoreValid, Schedule, ScheduleData, MaybeSequenceFin, FinView, DataView, Flight, DataEnd, SequencesFin,
         WithinWindows, NothingHeldBack;
    CoreHasSend(c, v);
    CoreHasEstimator(c, v);
    DataPass(key, c, v, now);
    PassWithinWindows(key, c, now);
    var c1, v1 := ScheduleData(key, c, now).0, DataView(c, v);
    ScheduleDataKeepsValid(key, c, v, now);
    DataViewFrame(c, v);
    var c', v' := Schedule(key, c, now).0, ScheduleView(key, c, v, now);
    if c1.snd.unsent == [] {
      FinPass(key, c1, v1, now);
    }
    PassFields(key, c, now);
    Conclude(c, v, v1, c', v', |c.snd.unsent| - |c1.snd.unsent|);
  }

  /** What the persist timer leaves alone. */
  lemma PassFields(key: Key, c: Conn, now: int)
    ensures var c1 := ScheduleData(key, c, now).0;
            var c2 := if c1.snd.unsent == [] then MaybeSequenceFin(key, c1, now).0 else c1;
            var c' := Schedule(key, c, now).0;
            c'.snd == c2.snd && c'.cc == c2.cc && c'.opt == c2.opt
  {
    hide ScheduleData, MaybeSequenceFin, PersistEligible;
  }

  /** The two limits from what the parts of a pass promise. */
  lemma Conclude(c: Conn, v: View, v1: View, c': Conn, v': View, sent: int)
    requires 0 <= sent && v1 == v.(nxt := v.nxt + sent) && DataEnd(v1) == v1.nxt && DataEnd(v) == v.nxt && !v.finSent
    requires sent > 0 ==> v.nxt - v.una + sent <= c.snd.wnd && v.nxt - v.una + sent <= c.cc.cwnd
    requires c'.snd.unsent != [] ==> v.nxt - v.una + sent >= Min(c.snd.wnd, c.cc.cwnd) || sent == 128 * c.opt.sendMss
    requires c'.snd.wnd == c.snd.wnd && c'.cc == c.cc && c'.opt == c.opt && v'.una == v.una
             && DataEnd(v') == DataEnd(v1)
    requires v'.finSent ==> v'.nxt - v'.una <= c.snd.wnd
    requires !v'.finSent ==> v' == v1
    requires !v'.finSent && c'.snd.unsent == [] && c'.snd.closeRequested ==> v1.nxt - v1.una >= c.snd.wnd
    ensures WithinWindows(c', v, v') && NothingHeldBack(c', v, v')
  {
    hide DataEnd;
  }

  lemma CoreHasEstimator(c: Conn, v: View)
    requires CoreValid(c, v)
    ensures ReceiveInvariant.OptValid(c.opt) && RttEstimator.Valid(c.rtt)
  {
  }

  lemma DataViewFrame(c: Conn, v: View)
    ensures var v' := DataView(c, v); v' == v.(nxt := v'.nxt)
  {
  }

  // ---------------------------------------------------------------- every event

  /** Both limits after an event; the second one where a scheduling pass belongs to it. */
  predicate Limited(c': Conn, v: View, v': View) {
    WithinWindows(c', v, v') && (!c'.removal && c'.Sendable() ==> NothingHeldBack(c', v, v'))
  }

  lemma NothingSequenced(c': Conn, v: View, v': View)
    requires DataEnd(v') == DataEnd(v) && v'.finSent == v.finSent
    ensures WithinWindows(c', v, v')
  {
  }

  lemma AckKeepsEnd(v: View, v': View)
    requires OnlyAck(v, v')
    ensures DataEnd(v') == DataEnd(v) && v'.finSent == v.finSent
  {
  }

  lemma SendableIsLimited(key: Key, c: Conn, v: View, now: int)
    requires CoreValid(c, v) && StepState(c, v)
    ensures Limited(ScheduleIfSendable(key, c, now).0, v, SendableView(key, c, v, now))
  {
    hide CoreValid, Schedule, ScheduleView, WithinWindows, NothingHeldBack, PersistEligible, StateOf;
    if !c.removal && c.Sendable() {
      FinSentInState(v);
      PassIsLimited(key, c, v, now);
    } else {
      NothingSequenced(UpdatePersist(c, now), v, v);
      StillNotSendable(c, now);
    }
  }

  lemma StillNotSendable(c: Conn, now: int)
    ensures var c' := UpdatePersist(c, now); c'.removal == c.removal && c'.Sendable() == c.Sendable()
  {
  }

  /** The limits only look at where the data and the FIN stood before. */
  lemma LimitedFrom(c': Conn, v: View, v1: View, v': View)
    requires Limited(c', v1, v') && DataEnd(v1) == DataEnd(v) && v1.finSent == v.finSent
    ensures Limited(c', v, v')
  {
  }

  lemma SynchronizedIsLimited(key: Key, c: Conn, v: View, seg: Segment, now: int)
    requires SyncValid(c, v) && c.state != TimeWait && (!seg.flags.rst ==> Timely(c.rcv, c.opt, seg))
    ensures var c', v' := HandleSynchronized(key, c, seg, now).0, SynchronizedView(key, c, v, seg, now);
            WithinWindows(c', v, v') && (AckAcceptable(c, seg) ==> Limited(c', v, v'))
  {
    hide SyncValid, CoreValid, StepState, ProcessAck, AfterAck, ProcessAckView, FastOk, ParseOptions, MakePureAck,
         Timely, SeqLessOrEqual, Receive, ScheduleIfSendable, SendableView, Absorbs, EpisodeKept, AllGenuine,
         WithinWindows, NothingHeldBack, DataEnd, OnlyAck;
    if AckAcceptable(c, seg) {
      var blocks := ParseOptions(seg.options).value.sackBlocks;
      var (c1, fast) := ProcessAck(key, c, seg, blocks, now);
      var v1 := ProcessAckView(c, v, seg, blocks, now);
      ProcessAckKeepsValid(key, c, v, seg, blocks, now);
      AckKeepsEnd(v, v1);
      AfterAckCases(key, c1, seg, fast, now);
      ReceiveKeepsValid(c1, v1, seg, now);
      ReceiveKeepsEnd(c1, v1, seg, now);
      var c0 := if Absorbs(c1, seg) then Receive(c1, seg, now).conn else c1;
      var v0 := if Absorbs(c1, seg) then ReceiveView(c1, v1, seg, now) else v1;
      SendableIsLimited(key, c0, v0, now);
      LimitedFrom(AfterAck(key, c1, seg, fast, now).0, v, v0, AfterAckView(key, c1, v1, seg, now));
    } else {
      NothingSequenced(HandleSynchronized(key, c, seg, now).0, v, v);
    }
  }

  lemma ReceiveKeepsEnd(c: Conn, v: View, seg: Segment, now: int)
    ensures DataEnd(ReceiveView(c, v, seg, now)) == DataEnd(v) && ReceiveView(c, v, seg, now).finSent == v.finSent
  {
    hide Receive;
  }

  lemma WriteIsLimited(key: Key, c: Conn, v: View, payload: seq<u8>, now: int)
    requires ConnValid(c, v)
    ensures var (c', r) := MakeOutgoingData(key, c, payload, now);
            var v' := SendView(key, c, v, payload, now);
            WithinWindows(c', v, v') && (r.Ok? ==> Limited(c', v, v'))
  {
    hide ConnValid, CoreValid, Schedule, ScheduleView, WithinWindows, NothingHeldBack, OwnedBytes, SyncValid;
    if SendCheck(c, payload).None? {
      SendableIsSync(c, v);
      SendableIsOpen(c, v);
      EnqueueKeepsCore(c, v, payload);
      EnqueueKeepsEnd(c, v, payload);
      PassIsLimited(key, Enqueue(c, payload), EnqueueView(v, payload), now);
      LimitedFrom(Schedule(key, Enqueue(c, payload), now).0, v, EnqueueView(v, payload),
                  ScheduleView(key, Enqueue(c, payload), EnqueueView(v, payload), now));
    } else {
      NothingSequenced(c, v, v);
    }
  }

  lemma SendableIsSync(c: Conn, v: View)
    requires ConnValid(c, v) && c.Sendable()
    ensures SyncValid(c, v)
  {
  }

  lemma EnqueueKeepsEnd(c: Conn, v: View, payload: seq<u8>)
    requires CoreValid(c, v) && !v.finSent
    ensures DataEnd(EnqueueView(v, payload)) == DataEnd(v) && EnqueueView(v, payload).finSent == v.finSent
  {
    hide RecvValid, RecoveryValid, Tiles, RttEstimator.Valid;
  }

  /** Closing: the FIN follows at once if no data waits and the peer's window has room. */
  lemma CloseIsLimited(key: Key, c: Conn, v: View, now: int)
    requires ConnValid(c, v)
    ensures var (c', r) := BeginClose(key, c, now);
            var v' := CloseView(c, v);
            && WithinWindows(c', v, v')
            && (r.accepted && c'.snd.unsent == [] && !v'.finSent ==> v'.nxt - v'.una >= c'.snd.wnd)
  {
    hide ConnValid, CoreValid, SyncValid, MaybeSequenceFin, SequencesFin, PersistEligible, WithinWindows, DataEnd;
    if c.Sendable() {
      SendableIsSync(c, v);
      SendableIsOpen(c, v);
      RequestKeepsCore(c, v);
      FinFrame(key, Requested(c), now);
      if c.snd.unsent == [] {
        FinPass(key, Requested(c), v, now);
        FinWithin(BeginClose(key, c, now).0, v, CloseView(c, v));
      } else {
        assert !SequencesFin(Requested(c)) by { NoFinBeforeData(c); }
        NothingSequenced(BeginClose(key, c, now).0, v, v);
      }
    } else {
      NothingSequenced(c, v, v);
    }
  }

  lemma NoFinBeforeData(c: Conn)
    requires c.snd.unsent != []
    ensures !SequencesFin(Requested(c))
  {
  }

  lemma FinWithin(c': Conn, v: View, v': View)
    requires DataEnd(v') == DataEnd(v) && (v'.finSent && !v.finSent ==> v'.nxt - v'.una <= c'.snd.wnd)
    ensures WithinWindows(c', v, v')
  {
  }

  /** Every event: nothing new is sent beyond the windows that are in force at its end. */
  lemma StepIsLimited(key: Key, c: Conn, v: View, e: Event, now: int)
    requires ConnValid(c, v) && TimelyEvent(c, e)
    ensures var c', v' := Step(key, c, e, now).0, StepView(key, c, v, e, now);
            && WithinWindows(c', v, v')
            && (e.Deliver? && c.Synchronized() && c.state != TimeWait && AckAcceptable(c, e.segment) ==>
                  Limited(c', v, v'))
            && (e.Write? && MakeOutgoingData(key, c, e.payload, now).1.Ok? ==> Limited(c', v, v'))
  {
    hide SyncValid, SynSentValid, SynReceivedValid, Timely, HandleSynchronized, HandleSynSent, HandleSynReceived,
         SynSentView, SynReceivedView, SynchronizedView, MakeOutgoingData, SendView, BeginClose, CloseView,
         PollRetransmission, PollView, PollPersist, HandleTimeWait, WithinWindows, Limited, DataEnd, AckAcceptable,
         Sent;
    var c', v' := Step(key, c, e, now).0, StepView(key, c, v, e, now);
    match e {
      case Deliver(seg) =>
        if c.state == SynSent || c.state == SynReceived {
          OpeningSequencesNothing(key, c, v, seg, now);
          NothingSequenced(c', v, v');
        } else if c.state == TimeWait {
          NothingSequenced(c', v, v');
        } else {
          SynchronizedIsLimited(key, c, v, seg, now);
        }
      case Write(payload) => WriteIsLimited(key, c, v, payload, now);
      case Close => CloseIsLimited(key, c, v, now);
      case PollRetransmissions =>
        PollSequencesNothing(c, v, now);
        NothingSequenced(c', v, v');
      case PollProbes => NothingSequenced(c', v, v');
    }
  }

  lemma OpeningSequencesNothing(key: Key, c: Conn, v: View, seg: Segment, now: int)
    requires SynSentValid(c, v) || SynReceivedValid(c, v)
    ensures var v' := HandleView(key, c, v, seg, now); DataEnd(v') == DataEnd(v) && v'.finSent == v.finSent
  {
    hide SamplesSyn, CompletesConnect, CompletesAccept, RttEstimator.Valid, ReceiveInvariant.OptValid;
  }

  lemma PollSequencesNothing(c: Conn, v: View, now: int)
    ensures var v' := PollView(c, v, now); DataEnd(v') == DataEnd(v) && v'.finSent == v.finSent
  {
    hide Pending.Deadline, Pending.Length;
  }

  // ---------------------------------------------------------------- runs

  /** Every event of the run stays within the windows. */
  predicate RunWithin(key: Key, c: Conn, v: View, inputs: seq<Input>)
    decreases |inputs|
  {
    inputs == [] || c.removal
    || var i := inputs[0];
       var c1, v1 := Step(key, c, i.event, i.now).0, StepView(key, c, v, i.event, i.now);
       WithinWindows(c1, v, v1) && RunWithin(key, c1, v1, inputs[1..])
  }

  lemma {:induction false} RunIsLimited(key: Key, c: Conn, v: View, inputs: seq<Input>)
    requires (c.removal || ConnValid(c, v)) && TimelyRun(key, c, inputs)
    ensures RunWithin(key, c, v, inputs)
    decreases |inputs|
  {
    hide ConnValid, Step, StepView, TimelyEvent, WithinWindows, Limited, AckAcceptable, MakeOutgoingData, Genuine;
    if inputs != [] && !c.removal {
      var i := inputs[0];
      StepKeepsValid(key, c, v, i.event, i.now);
      StepIsLimited(key, c, v, i.event, i.now);
      RunIsLimited(key, Step(key, c, i.event, i.now).0, StepView(key, c, v, i.event, i.now), inputs[1..]);
    }
  }
}
