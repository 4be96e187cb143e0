/**
 The invariant of one connection, stated against its history, and the pieces of every step
 that keep it.  The peer may send anything: nothing here assumes a well-behaved peer.
 */
module ConnInvariant {
  import opened Primitives
  import opened SequenceSpace
  import opened TcpTypes
  import opened RttEstimator
  import opened CongestionControl
  import opened Sending
  import opened PendingQueue
  import opened ReceiveInvariant

  /**
   The history of a connection in unbounded positions.  `una`, `nxt` and `rcv` are the
   positions of the three sequence variables, `point` that of the recovery point.
   `passive` says the peer's FIN was consumed before the local one was sequenced.
   */
  datatype View = View(
    ledger: Ledger, una: nat, nxt: nat, point: nat, finSent: bool,
    peerKnown: bool, peerIsn: u32, rcv: nat, delivered: seq<u8>, peerFin: bool, passive: bool)
  {
    predicate FinAcked() { finSent && una == 2 + |ledger.stream| }
  }

  // ---------------------------------------------------------------- the invariant

  /** Nothing in the history reaches past `nxt`. */
  predicate HistoryBelow(l: Ledger, nxt: nat) {
    && l.sampledEnd <= nxt
    && (forall x | x in l.resent :: x <= nxt)
    && (forall x | x in l.episode :: x < nxt)
  }

  /** What has been sequenced and what is still queued. */
  predicate QueueSplit(s: SendState, v: View) {
    var stream := v.ledger.stream;
    if v.finSent then
      s.finSeq == Some(At(v.ledger.isn, 1 + |stream|)) && v.nxt == 2 + |stream| && s.unsent == [] && s.closeRequested
    else
      s.finSeq.None? && 1 <= v.nxt <= 1 + |stream| && s.unsent == stream[v.nxt - 1..]
  }

  predicate SendValid(s: SendState, v: View) {
    && 1 <= v.una <= v.nxt
    && s.una == At(v.ledger.isn, v.una) && s.nxt == At(v.ledger.isn, v.nxt)
    && Tiles(s.pending, v.una, v.nxt, v.ledger)
    && |v.ledger.stream| + 1 <= v.una + SEND_BUFFER_CAPACITY
    && QueueSplit(s, v)
    && HistoryBelow(v.ledger, v.nxt)
  }

  predicate RecvValid(c: Conn, v: View) {
    && c.remoteKnown && v.peerKnown && c.remoteIsn == v.peerIsn
    && c.rcv.nxt == At(v.peerIsn, v.rcv)
    && v.rcv == 1 + |v.delivered| + (if v.peerFin then 1 else 0)
    && OptValid(c.opt) && BufferValid(c.rcv, c.opt)
    && (c.rcv.pendingFin.Some? ==> !v.peerFin)
  }

  /** The state is determined by the two FINs, their acknowledgment and their order. */
  function StateOf(v: View): TcpState {
    if !v.finSent then if v.peerFin then CloseWait else Established
    else if !v.peerFin then if v.FinAcked() then FinWait2 else FinWait1
    else if v.FinAcked() then TimeWait
    else if v.passive then LastAck else Closing
  }

  predicate RecoveryValid(c: Conn, v: View) {
    && Bounded(c.cc, c.opt.sendMss)
    && (c.cc.inRecovery ==> c.cc.recoveryPoint == At(v.ledger.isn, v.point) && v.una < v.point <= v.nxt)
  }

  /** Queued bytes always have a timer: something in flight, or a zero window being probed. */
  predicate NoStall(c: Conn) {
    && (c.snd.unsent != [] && c.snd.pending == [] ==> c.snd.wnd == 0)
    && (c.persist.deadline.Some? <==> PersistEligible(c))
    && INITIAL_PERSIST_INTERVAL <= c.persist.interval <= MAX_PERSIST_INTERVAL
  }

  /** Everything but the state, the window consequence and the persist timer: what holds inside a step. */
  predicate CoreValid(c: Conn, v: View) {
    && c.localIsn == v.ledger.isn
    && SendValid(c.snd, v) && RecvValid(c, v) && RecoveryValid(c, v) && RttEstimator.Valid(c.rtt)
    && INITIAL_PERSIST_INTERVAL <= c.persist.interval <= MAX_PERSIST_INTERVAL
    && (v.passive ==> v.peerFin && v.finSent)
  }

  predicate SyncValid(c: Conn, v: View) {
    && CoreValid(c, v) && NoStall(c)
    && c.Synchronized() && c.state == StateOf(v) && (c.state == TimeWait <==> c.timeWait.Some?)
    && !(v.FinAcked() && v.peerFin && v.passive)
    && !c.removal
  }

  // ---------------------------------------------------------------- the flight bound

  /** The assumption behind the comparisons is a consequence of the send-buffer accounting. */
  lemma FlightBound(s: SendState, v: View)
    requires SendValid(s, v)
    ensures v.nxt - v.una <= SEND_BUFFER_CAPACITY + 1 < REACH
    ensures Flight(s) == v.nxt - v.una
    ensures OwnedBytes(s) <= SEND_BUFFER_CAPACITY
    ensures v.una <= 1 + |v.ledger.stream| ==> OwnedBytes(s) == 1 + |v.ledger.stream| - v.una
  {
    SubOfPositions(v.ledger.isn, v.nxt, v.una);
    if v.una <= 1 + |v.ledger.stream| {
      OwnedIsRange(s.pending, v.una, v.nxt, v.ledger);
    } else {
      TilesOrdered(s.pending, v.una, v.nxt, v.ledger);
    }
  }

  /** The ACK test accepts exactly the numbers in (`snd_una`, `snd_nxt`] as advancing. */
  lemma AdvancingAckExact(s: SendState, v: View, ack: u32)
    requires SendValid(s, v)
    ensures (SeqLessOrEqual(ack, s.nxt) && SeqGreater(ack, s.una)) <==>
            (v.una < v.una + Sub(ack, s.una) <= v.nxt)
    ensures ack == At(v.ledger.isn, v.una + Sub(ack, s.una))
    ensures forall p: nat | v.una < p <= v.nxt && ack == At(v.ledger.isn, p) :: p == v.una + Sub(ack, s.una)
  {
    var p := PositionInWindow(v.ledger.isn, v.una, ack);
    FlightBound(s, v);
    if p <= v.nxt {
      ComparePositions(v.ledger.isn, p, v.una);
      ComparePositions(v.ledger.isn, p, v.nxt);
    } else {
      SubOfPositions(v.ledger.isn, v.nxt, p);
    }
    forall q: nat | v.una < q <= v.nxt && ack == At(v.ledger.isn, q)
      ensures q == p
    {
      SubOfPositions(v.ledger.isn, q, v.una);
    }
  }

  // ---------------------------------------------------------------- acknowledgment

  /** Whether the retirement of `ack` at `now` takes a round-trip sample. */
  predicate Samples(c: Conn, ack: u32, now: int) {
    SeqGreater(ack, c.snd.una) && Retire(c.snd.pending, ack).sample.Some?
    && Retire(c.snd.pending, ack).sample.value <= now
  }

  function AckView(c: Conn, v: View, ack: u32, now: int): View {
    if !SeqGreater(ack, c.snd.una) then v
    else
      v.(una := v.una + Sub(ack, c.snd.una),
         ledger := SampledLedger(v.ledger, Samples(c, ack, now), SampleEnd(c.snd.pending, v.una, ack)))
  }

  function SampledLedger(l: Ledger, sampled: bool, end: nat): Ledger {
    if sampled then l.(sampledEnd := end) else l
  }

  /** The queue after an advancing ACK, with the sample recorded if one is taken. */
  lemma RetireQueue(s: SendState, v: View, ack: u32, sampled: bool)
    requires SendValid(s, v) && SeqLessOrEqual(ack, s.nxt) && SeqGreater(ack, s.una)
    requires sampled ==> Retire(s.pending, ack).sample.Some?
    ensures var a, r, end := v.una + Sub(ack, s.una), Retire(s.pending, ack), SampleEnd(s.pending, v.una, ack);
            var left := if sampled && r.keep then r.pending[0 := r.pending[0].(sampled := true)] else r.pending;
            && v.una < a <= v.nxt && ack == At(v.ledger.isn, a)
            && Tiles(left, a, v.nxt, SampledLedger(v.ledger, sampled, end))
            && r.dataBytes == Min(a, 1 + |v.ledger.stream|) - Min(v.una, 1 + |v.ledger.stream|)
            && (sampled ==> v.ledger.sampledEnd < end <= v.nxt && end !in v.ledger.resent)
  {
    hide Tiles, Retire, SampleEnd, SignedSub, At, QueueSplit, HistoryBelow;
    AdvancingAckExact(s, v, ack);
    FlightBound(s, v);
    var a := v.una + Sub(ack, s.una);
    RetireTiles(s.pending, v.una, v.nxt, v.ledger, a);
    SampleIsFresh(s.pending, v.una, v.nxt, v.ledger, a);
    if sampled {
      var r := Retire(s.pending, ack);
      TilesSampled(r.pending, a, v.nxt, v.ledger, r.keep, SampleEnd(s.pending, v.una, ack));
    }
  }

  /** Retirement keeps the send side and the estimator valid. */
  lemma RetireKeepsValid(c: Conn, v: View, ack: u32, now: int)
    requires SendValid(c.snd, v) && SeqLessOrEqual(ack, c.snd.nxt) && RttEstimator.Valid(c.rtt)
    ensures var (c', r) := RetireAcknowledged(c, ack, now);
            SendValid(c'.snd, AckView(c, v, ack, now)) && RttEstimator.Valid(c'.rtt)
  {
    hide Tiles, Retire, SampleEnd, RecordSample, SignedSub, At, RttEstimator.Valid;
    if SeqGreater(ack, c.snd.una) {
      RetireQueue(c.snd, v, ack, Samples(c, ack, now));
      if Samples(c, ack, now) {
        SampleKeepsValid(c.rtt, now - Retire(c.snd.pending, ack).sample.value);
      }
    }
  }

  /**
   What an ACK does: it moves `snd_una` to its position exactly when it is advancing, the data
   byte count excludes the FIN, and a sample comes from an entry that was never resent and
   ends beyond everything sampled before.
   */
  lemma RetireMeaning(c: Conn, v: View, ack: u32, now: int)
    requires SendValid(c.snd, v) && SeqLessOrEqual(ack, c.snd.nxt)
    ensures var r := RetireAcknowledged(c, ack, now).1;
            var v' := AckView(c, v, ack, now);
            && v.una <= v'.una <= v.nxt
            && r.advanced == (v'.una > v.una) && r.space == v'.una - v.una
            && r.dataBytes == Min(v'.una, 1 + |v.ledger.stream|) - Min(v.una, 1 + |v.ledger.stream|)
            && (Samples(c, ack, now) ==>
                  v'.ledger.sampledEnd > v.ledger.sampledEnd && v'.ledger.sampledEnd !in v.ledger.resent)
            && (r.advanced ==> ack == At(v.ledger.isn, v'.una))
  {
    hide Tiles, Retire, SampleEnd, RecordSample, SignedSub, At, HistoryBelow, QueueSplit;
    if SeqGreater(ack, c.snd.una) {
      RetireQueue(c.snd, v, ack, Samples(c, ack, now));
    }
  }
}
