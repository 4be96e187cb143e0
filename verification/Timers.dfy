/**
 The retransmission timer left alone: polls without any input in between.  The handshake
 segments that the timer and duplicate SYNs repeat are the identical segment.
 */
module Timers {
  import opened Primitives
  import opened SequenceSpace
  import opened TcpOptions
  import opened TcpSegments
  import opened TcpTypes
  import opened RttEstimator
  import opened CongestionControl
  import opened Sending
  import opened TcpEngine
  import opened PendingQueue
  import opened ReceiveInvariant
  import opened ConnInvariant
  import opened AckPhase
  import opened SendPhase
  import opened ConnSteps
  import opened CallSteps
  import opened ConnRuns

  // ---------------------------------------------------------------- expiries

  /** The connection after polls at the given times, and how many of them found the timer expired. */
  function Polls(key: Key, c: Conn, times: seq<int>): (Conn, nat)
    decreases |times|
  {
    if times == [] || c.removal then (c, 0)
    else
      var (c1, r) := PollRetransmission(key, c, times[0]);
      var (c2, n) := Polls(key, c1, times[1..]);
      (c2, n + (if r == Idle then 0 else 1))
  }

  lemma OnePoll(key: Key, c: Conn, now: int)
    requires c.state != TimeWait && c.snd.pending != [] && c.snd.pending[0].timeouts <= MAX_RETRANSMITS && !c.removal
    ensures var (c', r) := PollRetransmission(key, c, now);
            && c'.state == c.state && c'.snd.pending != []
            && (r == Idle ==> c' == c)
            && (r != Idle ==> if c.snd.pending[0].timeouts == MAX_RETRANSMITS then c' == c.(removal := true)
                              else !c'.removal && c'.snd.pending[0].timeouts == c.snd.pending[0].timeouts + 1
                                   && c'.snd.pending[0].interval == BackOff(c.snd.pending[0].interval))
  {
    hide TimeoutSegment, Collapse, BackOff;
  }

  /**
   Without input, a connection with something in flight survives at most five expiries and is
   removed exactly by the sixth.
   */
  lemma {:induction false} SixExpiriesRemove(key: Key, c: Conn, times: seq<int>)
    requires c.state != TimeWait && c.snd.pending != [] && c.snd.pending[0].timeouts <= MAX_RETRANSMITS && !c.removal
    ensures var (c', n) := Polls(key, c, times);
            var left := 6 - c.snd.pending[0].timeouts;
            n <= left && (c'.removal <==> n == left)
    decreases |times|
  {
    hide PollRetransmission;
    if times != [] {
      OnePoll(key, c, times[0]);
      var c1 := PollRetransmission(key, c, times[0]).0;
      if !c1.removal {
        SixExpiriesRemove(key, c1, times[1..]);
      } else {
        assert Polls(key, c1, times[1..]) == (c1, 0);
      }
    }
  }

  function Doubled(interval: int, n: nat): int { if n == 0 then interval else 2 * Doubled(interval, n - 1) }

  /** After `n` expiries the interval has doubled `n` times, up to the maximum. */
  lemma {:induction false} IntervalsDouble(key: Key, c: Conn, times: seq<int>)
    requires c.state != TimeWait && c.snd.pending != [] && c.snd.pending[0].timeouts <= MAX_RETRANSMITS && !c.removal
    requires Ranged(c.snd.pending[0].interval)
    ensures var (c', n) := Polls(key, c, times);
            && c'.snd.pending != [] && Ranged(c'.snd.pending[0].interval)
            && (!c'.removal ==> c'.snd.pending[0].interval == Min(Doubled(c.snd.pending[0].interval, n), MAX_RTO))
    decreases |times|
  {
    hide PollRetransmission;
    if times != [] {
      OnePoll(key, c, times[0]);
      var (c1, r) := PollRetransmission(key, c, times[0]);
      if !c1.removal {
        BackOffRanged(c.snd.pending[0].interval);
        IntervalsDouble(key, c1, times[1..]);
        if r != Idle {
          DoubledOnce(c.snd.pending[0].interval, Polls(key, c1, times[1..]).1);
        }
      } else {
        assert Polls(key, c1, times[1..]) == (c1, 0);
      }
    }
  }

  lemma {:induction false} DoubledOnce(interval: int, n: nat)
    requires Ranged(interval)
    ensures Min(Doubled(BackOff(interval), n), MAX_RTO) == Min(Doubled(interval, n + 1), MAX_RTO)
    ensures Doubled(interval, n) >= interval
    decreases n
  {
    if n > 0 {
      DoubledOnce(interval, n - 1);
    }
  }

  // ---------------------------------------------------------------- no silent stall

  /** Some timer is running for the connection. */
  predicate Timed(c: Conn) { RetransmissionDeadline(c).Some? || c.persist.deadline.Some? }

  /**
   Between calls the persist timer runs exactly when it should, queued bytes always have a timer,
   and so has everything in flight.
   */
  lemma NoSilentStall(c: Conn, v: View)
    requires ConnValid(c, v)
    ensures c.persist.deadline.Some? <==> PersistEligible(c)
    ensures c.snd.unsent != [] || v.una < v.nxt ==> Timed(c)
  {
    hide CoreValid, StateOf, OptValid, InitialCwnd, RttEstimator.Valid, SynEntry, At;
    if c.Synchronized() && (c.snd.unsent != [] || v.una < v.nxt) {
      SyncTimed(c, v);
    }
  }

  lemma SyncTimed(c: Conn, v: View)
    requires SyncValid(c, v) && (c.snd.unsent != [] || v.una < v.nxt)
    ensures Timed(c)
  {
    hide CoreValid, StateOf;
    SyncIsCore(c, v);
    CoreHasSend(c, v);
    if c.snd.pending == [] {
      EmptyQueue(c.snd, v);
      QueuedIsSendable(c, v);
    }
  }

  lemma QueuedIsSendable(c: Conn, v: View)
    requires SyncValid(c, v) && c.snd.unsent != []
    ensures c.Sendable() && c.snd.finSeq.None?
  {
    hide RecvValid, RecoveryValid, RttEstimator.Valid, HistoryBelow, Tiles;
    FinSentInState(v);
  }

  // ---------------------------------------------------------------- repeated handshake segments

  /** Every event before the handshake completes. */
  predicate StaysHalfOpen(key: Key, c: Conn, inputs: seq<Input>)
    decreases |inputs|
  {
    inputs == [] || (var c1 := Step(key, c, inputs[0].event, inputs[0].now).0;
                     c1.state == c.state && !c1.removal && StaysHalfOpen(key, c1, inputs[1..]))
  }

  function Opener(key: Key, c: Conn): Segment {
    if c.state == SynSent then MakeActiveSyn(key, c) else MakeSynAck(key, c)
  }

  lemma OpenerFrame(key: Key, c: Conn, c': Conn)
    requires c'.state == c.state && c'.localIsn == c.localIsn && c'.remoteIsn == c.remoteIsn && c'.rcv == c.rcv
             && c'.opt == c.opt
    ensures Opener(key, c') == Opener(key, c)
  {
  }

  lemma SynSentRepeats(key: Key, c: Conn, seg: Segment, now: int)
    requires c.state == SynSent
    ensures var (c', r) := HandleSynSent(key, c, seg, now);
            c'.state == c.state && !c'.removal ==> c' == c && r == NOTHING
  {
    hide ParseOptions, RetireAcknowledged, Negotiate, InitialCwnd, MakeSegment;
    if CompletesConnect(c, seg) {
      var opt := Negotiate(ParseOptions(seg.options).value);
      RetireFrame(c.(remoteIsn := seg.seqno, remoteKnown := true, rcv := c.rcv.(nxt := At(seg.seqno, 1)),
                     opt := opt, cc := c.cc.(cwnd := InitialCwnd(opt.sendMss)), state := Established), seg.ackno, now);
    }
  }

  lemma SynReceivedRepeats(key: Key, c: Conn, seg: Segment, now: int)
    requires c.state == SynReceived
    ensures var (c', r) := HandleSynReceived(key, c, seg, now);
            c'.state == c.state && !c'.removal ==>
              c' == c.(snd := c'.snd) && (r == NOTHING || r == Replying(MakeSynAck(key, c)))
  {
    hide RetireAcknowledged, DecodePeerWindow, MakeSynAck;
    RetireFrame(c.(state := Established, rcv := c.rcv.(nxt := At(c.remoteIsn, 1)),
                   snd := c.snd.(una := c.localIsn, nxt := At(c.localIsn, 1))), At(c.localIsn, 1), now);
  }

  lemma PollRepeats(key: Key, c: Conn, v: View, now: int)
    requires SynSentValid(c, v) || SynReceivedValid(c, v)
    ensures var (c', r) := PollRetransmission(key, c, now);
            !c'.removal ==>
              c' == c.(snd := c'.snd, rtt := c'.rtt, cc := c'.cc) && (r.Resent? ==> r.segment == Opener(key, c))
  {
    hide OptValid, InitialCwnd, RttEstimator.Valid, ResendOldest, SynEntry, At;
    if c.snd.pending[0].timeouts < MAX_RETRANSMITS {
      ResendKeepsOpening(key, c, v, now);
      ResendFrame(key, c, now);
    }
  }

  lemma NotSendableYet(key: Key, c: Conn, v: View, e: Event, now: int)
    requires SynSentValid(c, v) || SynReceivedValid(c, v)
    requires e.Write? || e.Close? || e.PollProbes?
    ensures Step(key, c, e, now) == (c, Nothing())
  {
    hide OptValid, InitialCwnd, RttEstimator.Valid, SynEntry, At, OwnedBytes;
  }

  lemma OpenerRepeats(key: Key, c: Conn, v: View, e: Event, now: int)
    requires SynSentValid(c, v) || SynReceivedValid(c, v)
    ensures var (c', out) := Step(key, c, e, now);
            c'.state == c.state && !c'.removal ==>
              Opener(key, c') == Opener(key, c) && forall s | s in out.sent :: s == Opener(key, c)
  {
    hide OpeningValid, PollRetransmission, HandleSynSent, HandleSynReceived, MakeActiveSyn, MakeSynAck,
         MakeOutgoingData, BeginClose, PollPersist, InitialCwnd, OptValid;
    var c' := Step(key, c, e, now).0;
    if e.Deliver? {
      if c.state == SynSent {
        SynSentRepeats(key, c, e.segment, now);
      } else {
        SynReceivedRepeats(key, c, e.segment, now);
      }
    } else if e.PollRetransmissions? {
      PollRepeats(key, c, v, now);
    } else {
      NotSendableYet(key, c, v, e, now);
    }
    if c'.state == c.state && !c'.removal {
      OpenerFrame(key, c, c');
    }
  }

  /** Every SYN, or every SYN-ACK, that a connection sends before it is established is the identical segment. */
  lemma {:induction false} HandshakeIsRepeated(key: Key, c: Conn, v: View, inputs: seq<Input>)
    requires ConnValid(c, v) && !c.Synchronized() && StaysHalfOpen(key, c, inputs)
    ensures forall s | s in Run(key, c, inputs).1.sent :: s == Opener(key, c)
    decreases |inputs|
  {
    hide Step, StepView, OpeningValid, Opener;
    if inputs != [] && !c.removal {
      var i := inputs[0];
      var (c1, out) := Step(key, c, i.event, i.now);
      OpenerRepeats(key, c, v, i.event, i.now);
      StepKeepsValid(key, c, v, i.event, i.now);
      SteppedValid(c1, out, v, StepView(key, c, v, i.event, i.now));
      HandshakeIsRepeated(key, c1, StepView(key, c, v, i.event, i.now), inputs[1..]);
    }
  }
}
