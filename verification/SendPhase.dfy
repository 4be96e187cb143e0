/** Scheduling: queued bytes into segments, the deferred FIN, the persist timer and enqueueing. */
module SendPhase {
  import opened Primitives
  import opened SequenceSpace
  import opened TcpOptions
  import opened TcpSegments
  import opened TcpTypes
  import opened Receiving
  import opened RttEstimator
  import opened CongestionControl
  import opened Sending
  import opened PendingQueue
  import opened ReceiveInvariant
  import opened ConnInvariant
  import opened AckPhase

  // ---------------------------------------------------------------- segments of a slice

  /** Consecutive data segments that together carry the stream from position `pos` to `end`. */
  predicate CarryFrom(segs: seq<Segment>, pos: nat, end: nat, isn: u32, ackno: u32, stream: seq<u8>) {
    if segs == [] then pos == end
    else
      && segs[0].seqno == At(isn, pos) && segs[0].ackno == ackno && segs[0].payload != [] && PlainFlags(segs[0].flags)
      && Carries(segs[0].payload, pos, stream)
      && CarryFrom(segs[1..], pos + |segs[0].payload|, end, isn, ackno, stream)
  }

  lemma CarryCons(seg: Segment, rest: seq<Segment>, pos: nat, end: nat, isn: u32, ackno: u32, stream: seq<u8>)
    requires seg.seqno == At(isn, pos) && seg.ackno == ackno && seg.payload != [] && PlainFlags(seg.flags)
    requires Carries(seg.payload, pos, stream) && CarryFrom(rest, pos + |seg.payload|, end, isn, ackno, stream)
    ensures CarryFrom([seg] + rest, pos, end, isn, ackno, stream)
  {
    assert ([seg] + rest)[1..] == rest;
  }

  lemma SliceParts(stream: seq<u8>, at: nat, data: seq<u8>, n: nat)
    requires at + |data| <= |stream| && data == stream[at..at + |data|] && n <= |data|
    ensures data[..n] == stream[at..at + n] && data[n..] == stream[at + n..at + n + |data[n..]|]
  {
  }

  /** Segmentation loses, reorders and duplicates nothing, and no segment exceeds the MSS. */
  lemma {:induction false} SegmentsCarry(key: Key, c: Conn, isn: u32, pos: nat, data: seq<u8>, drain: bool,
                                         stream: seq<u8>)
    requires (data == [] || c.opt.sendMss > 0) && c.opt.sendMss <= TCP_MSS
    requires 1 <= pos && pos - 1 + |data| <= |stream| && data == stream[pos - 1..pos - 1 + |data|]
    ensures var segs := Segments(key, c, At(isn, pos), data, drain);
            && CarryFrom(segs, pos, pos + |data|, isn, c.rcv.nxt, stream)
            && (forall s | s in segs :: |s.payload| <= c.opt.sendMss)
    decreases |data|
  {
    hide AdvertisedWindow, At, CarryFrom;
    if data == [] {
      NothingCarried(pos, isn, c.rcv.nxt, stream);
    } else {
      var n := Min(c.opt.sendMss, |data|);
      AtAt(isn, pos, n);
      SliceParts(stream, pos - 1, data, n);
      SegmentsCarry(key, c, isn, pos + n, data[n..], drain, stream);
      var seg := MakeSegment(key, c, At(isn, pos), ACK.(psh := drain && n == |data|), [], data[..n]);
      CarryCons(seg, Segments(key, c, At(isn, pos + n), data[n..], drain), pos, pos + |data|, isn, c.rcv.nxt, stream);
    }
  }

  lemma NothingCarried(pos: nat, isn: u32, ackno: u32, stream: seq<u8>)
    ensures CarryFrom([], pos, pos, isn, ackno, stream)
  {
  }

  /** The entries registered for those segments tile their range. */
  lemma {:induction false} EntriesTile(segs: seq<Segment>, pos: nat, end: nat, ackno: u32, l: Ledger, now: int,
                                       rto: int)
    requires CarryFrom(segs, pos, end, l.isn, ackno, l.stream) && HistoryBelow(l, pos) && Ranged(rto)
    ensures Tiles(Entries(segs, now, rto), pos, end, l)
    decreases |segs|
  {
    if segs != [] {
      var next := pos + |segs[0].payload|;
      EntriesTile(segs[1..], next, end, ackno, l, now, rto);
      var e := NewPending(segs[0].seqno, segs[0].flags, segs[0].payload, now, rto);
      TilesCons(e, Entries(segs[1..], now, rto), pos, end, l);
    }
  }

  // ---------------------------------------------------------------- one scheduling pass

  function DataView(c: Conn, v: View): View { v.(nxt := v.nxt + ToSend(c)) }

  lemma ScheduleDataFrame(key: Key, c: Conn, now: int)
    ensures var c' := ScheduleData(key, c, now).0;
            && c' == c.(snd := c.snd.(pending := c'.snd.pending, unsent := c'.snd.unsent, nxt := c'.snd.nxt))
            && c'.snd.unsent == c.snd.unsent[ToSend(c)..]
  {
  }

  lemma ScheduleDataKeepsValid(key: Key, c: Conn, v: View, now: int)
    requires SendValid(c.snd, v) && !v.finSent && OptValid(c.opt) && RttEstimator.Valid(c.rtt)
    ensures var (c', segs) := ScheduleData(key, c, now);
            && SendValid(c'.snd, DataView(c, v))
            && CarryFrom(segs, v.nxt, v.nxt + ToSend(c), v.ledger.isn, c.rcv.nxt, v.ledger.stream)
  {
    hide Tiles, At, Segments, Entries, ToSend, CarryFrom, HistoryBelow;
    var n := ToSend(c);
    var stream := v.ledger.stream;
    ToSendBound(c);
    assert c.snd.unsent[..n] == stream[v.nxt - 1..v.nxt - 1 + n];
    SegmentsCarry(key, c, v.ledger.isn, v.nxt, c.snd.unsent[..n], n == |c.snd.unsent|, stream);
    var segs := Segments(key, c, c.snd.nxt, c.snd.unsent[..n], n == |c.snd.unsent|);
    EntriesTile(segs, v.nxt, v.nxt + n, c.rcv.nxt, v.ledger, now, c.rtt.rto);
    TilesAppend(c.snd.pending, Entries(segs, now, c.rtt.rto), v.una, v.nxt, v.nxt + n, v.ledger);
    AtAt(v.ledger.isn, v.nxt, n);
    HistoryStaysBelow(v.ledger, v.nxt, v.nxt + n);
    assert c.snd.unsent[n..] == stream[v.nxt + n - 1..];
  }

  lemma ToSendBound(c: Conn)
    ensures ToSend(c) <= |c.snd.unsent|
    ensures c.opt.sendMss == 0 ==> ToSend(c) == 0
  {
  }

  lemma HistoryStaysBelow(l: Ledger, n: nat, m: nat)
    requires HistoryBelow(l, n) && n <= m
    ensures HistoryBelow(l, m)
  {
  }

  // ---------------------------------------------------------------- the FIN

  predicate SequencesFin(c: Conn) {
    c.snd.closeRequested && c.snd.finSeq.None? && c.snd.unsent == [] && AvailableSendWindow(c.snd) >= 1
  }

  function FinView(c: Conn, v: View): View {
    if SequencesFin(c) then v.(nxt := v.nxt + 1, finSent := true, passive := v.peerFin) else v
  }

  lemma FinFrame(key: Key, c: Conn, now: int)
    ensures var (c', fin) := MaybeSequenceFin(key, c, now);
            && c' == c.(state := c'.state,
                        snd := c.snd.(pending := c'.snd.pending, finSeq := c'.snd.finSeq, nxt := c'.snd.nxt))
            && fin == (if SequencesFin(c) then [MakeFin(key, c)] else [])
            && c'.state == (if !SequencesFin(c) then c.state else if c.state == Established then FinWait1 else LastAck)
            && (c'.snd.finSeq.Some? <==> c.snd.finSeq.Some? || SequencesFin(c))
            && (!SequencesFin(c) ==> c' == c)
            && (SequencesFin(c) ==> c'.snd.pending != [])
  {
    hide MakeFin, AvailableSendWindow;
  }

  /** The FIN is sequenced once, after the last byte, and the state follows the peer's FIN. */
  lemma FinKeepsValid(key: Key, c: Conn, v: View, now: int)
    requires SendValid(c.snd, v) && RttEstimator.Valid(c.rtt) && !v.finSent && !v.passive
    requires c.state == StateOf(v)
    ensures var (c', fin) := MaybeSequenceFin(key, c, now);
            && SendValid(c'.snd, FinView(c, v)) && c'.state == StateOf(FinView(c, v))
            && (SequencesFin(c) ==> v.nxt == 1 + |v.ledger.stream| && !FinView(c, v).FinAcked())
  {
    hide Tiles, At, MakeFin, AvailableSendWindow, HistoryBelow;
    if SequencesFin(c) {
      var isn, stream := v.ledger.isn, v.ledger.stream;
      var e := NewPending(c.snd.nxt, FIN_ACK, [], now, c.rtt.rto).(isFin := true);
      FinTile(e, v.nxt, v.ledger);
      TilesAppend(c.snd.pending, [e], v.una, v.nxt, v.nxt + 1, v.ledger);
      AtAt(isn, v.nxt, 1);
      HistoryStaysBelow(v.ledger, v.nxt, v.nxt + 1);
      assert MakeFin(key, c).flags == FIN_ACK by { FinFlags(key, c); }
      assert v.nxt == 1 + |stream|;
    }
  }

  lemma FinFlags(key: Key, c: Conn)
    ensures MakeFin(key, c).flags == FIN_ACK && MakeFin(key, c).payload == []
    ensures MakeFin(key, c).seqno == c.snd.nxt && MakeFin(key, c).ackno == c.rcv.nxt
  {
  }

  lemma FinTile(e: Pending, pos: nat, l: Ledger)
    requires e.start == At(l.isn, pos) && !e.isSyn && !e.isActiveSyn && e.isFin && e.payload == [] && e.flags == FIN_ACK
    requires pos == 1 + |l.stream| && HistoryBelow(l, pos) && Ranged(e.interval) && e.timeouts == 0
    ensures Tiles([e], pos, pos + 1, l)
  {
    assert [e][1..] == [];
  }

  // ---------------------------------------------------------------- persist and the whole pass

  lemma PersistKeepsRange(c: Conn, now: int)
    requires INITIAL_PERSIST_INTERVAL <= c.persist.interval <= MAX_PERSIST_INTERVAL
    ensures var c' := UpdatePersist(c, now);
            && c' == c.(persist := c'.persist)
            && (c'.persist.deadline.Some? <==> PersistEligible(c'))
            && INITIAL_PERSIST_INTERVAL <= c'.persist.interval <= MAX_PERSIST_INTERVAL
  {
  }

  /** After a pass, queued bytes with nothing in flight mean a closed peer window. */
  lemma PassLeavesNoStall(key: Key, c: Conn, v: View, now: int)
    requires SendValid(c.snd, v) && OptValid(c.opt) && Bounded(c.cc, c.opt.sendMss)
    ensures var c' := ScheduleData(key, c, now).0;
            c'.snd.unsent != [] && c'.snd.pending == [] ==> c'.snd.wnd == 0
  {
    hide Tiles, At, Entries;
    var c' := ScheduleData(key, c, now).0;
    if c'.snd.unsent != [] && c'.snd.pending == [] {
      assert c.snd.pending == [];
      EmptyQueue(c.snd, v);
      assert ToSend(c) == 0 by {
        if ToSend(c) > 0 {
          EntriesNonEmpty(key, c, now);
        }
      }
    }
  }

  lemma EmptyQueue(s: SendState, v: View)
    requires SendValid(s, v) && s.pending == []
    ensures Flight(s) == 0 && v.una == v.nxt
  {
  }

  lemma EntriesNonEmpty(key: Key, c: Conn, now: int)
    requires ToSend(c) > 0
    ensures var c' := ScheduleData(key, c, now).0; c'.snd.pending != []
  {
    hide ToSend;
    ToSendBound(c);
    var n := ToSend(c);
    var segs := Segments(key, c, c.snd.nxt, c.snd.unsent[..n], n == |c.snd.unsent|);
    assert segs != [];
    assert Entries(segs, now, c.rtt.rto) != [];
  }

  /** The connection after the data and the FIN of a pass, before the persist timer. */
  function Passed(key: Key, c: Conn, now: int): (Conn, seq<Segment>, seq<Segment>) {
    var (c1, data) := ScheduleData(key, c, now);
    if c1.snd.unsent == [] then var (c2, fin) := MaybeSequenceFin(key, c1, now); (c2, data, fin) else (c1, data, [])
  }

  function ScheduleView(key: Key, c: Conn, v: View, now: int): View {
    var c1 := ScheduleData(key, c, now).0;
    if c1.snd.unsent == [] then FinView(c1, DataView(c, v)) else DataView(c, v)
  }

  predicate IsFin(seg: Segment, v: View, ackno: u32) {
    && v.finSent && seg.flags == FIN_ACK && seg.payload == [] && seg.ackno == ackno
    && seg.seqno == At(v.ledger.isn, 1 + |v.ledger.stream|) && v.nxt == 2 + |v.ledger.stream|
  }

  predicate IsData(seg: Segment, pos: nat, v: View, ackno: u32) {
    && seg.seqno == At(v.ledger.isn, pos) && seg.ackno == ackno && seg.payload != [] && PlainFlags(seg.flags)
    && Carries(seg.payload, pos, v.ledger.stream)
  }

  /** What a pass sends: the stream from `pos` on without a hole, the FIN last, up to `snd_nxt`. */
  predicate Sends(segs: seq<Segment>, pos: nat, v: View, ackno: u32) {
    if segs == [] then pos == v.nxt
    else if segs[0].flags.fin then IsFin(segs[0], v, ackno) && pos == 1 + |v.ledger.stream| && segs[1..] == []
    else IsData(segs[0], pos, v, ackno) && Sends(segs[1..], pos + |segs[0].payload|, v, ackno)
  }

  lemma {:induction false} CarryThenFin(data: seq<Segment>, fin: seq<Segment>, pos: nat, end: nat, v: View, ackno: u32)
    requires CarryFrom(data, pos, end, v.ledger.isn, ackno, v.ledger.stream) && Sends(fin, end, v, ackno)
    ensures Sends(data + fin, pos, v, ackno)
    decreases |data|
  {
    if data == [] {
      assert data + fin == fin;
    } else {
      assert (data + fin)[1..] == data[1..] + fin;
      CarryThenFin(data[1..], fin, pos + |data[0].payload|, end, v, ackno);
    }
  }

  lemma PassedKeepsValid(key: Key, c: Conn, v: View, now: int)
    requires CoreValid(c, v) && c.state == StateOf(v) && !v.finSent && !v.passive
    ensures var (c', data, fin) := Passed(key, c, now);
            var v' := ScheduleView(key, c, v, now);
            && SendValid(c'.snd, v') && c'.state == StateOf(v') && !v'.FinAcked()
            && c' == c.(snd := c'.snd, state := c'.state)
            && v' == v.(nxt := v'.nxt, finSent := v'.finSent, passive := v'.passive) && v.nxt <= v'.nxt
            && (v'.passive ==> v'.peerFin && v'.finSent)
            && (c'.snd.unsent != [] && c'.snd.pending == [] ==> c'.snd.wnd == 0)
            && Sends(data + fin, v.nxt, v', c.rcv.nxt)
  {
    hide SendValid, StateOf, ScheduleData, MaybeSequenceFin, SequencesFin, ToSend, OptValid, RttEstimator.Valid,
         Bounded, BufferValid, CarryFrom, At, Sends;
    var (c1, data) := ScheduleData(key, c, now);
    var v1 := DataView(c, v);
    ScheduleDataKeepsValid(key, c, v, now);
    ScheduleDataFrame(key, c, now);
    PassLeavesNoStall(key, c, v, now);
    StateOfSend(v, v1);
    if c1.snd.unsent == [] {
      FinKeepsValid(key, c1, v1, now);
      FinFrame(key, c1, now);
      FinFlags(key, c1);
      SendOrder(c1.snd, v1);
    }
    PassSends(key, c, v, now);
  }

  lemma StateOfSend(v: View, v': View)
    requires !v.finSent && v' == v.(nxt := v'.nxt)
    ensures StateOf(v') == StateOf(v) && !v'.FinAcked()
  {
  }

  lemma PassSends(key: Key, c: Conn, v: View, now: int)
    requires SendValid(c.snd, v) && !v.finSent && OptValid(c.opt) && RttEstimator.Valid(c.rtt) && !v.passive
             && c.state == StateOf(v)
    ensures var (c', data, fin) := Passed(key, c, now);
            var v' := ScheduleView(key, c, v, now);
            Sends(data + fin, v.nxt, v', c.rcv.nxt)
  {
    hide SendValid, StateOf, ScheduleData, MaybeSequenceFin, SequencesFin, ToSend, OptValid, RttEstimator.Valid,
         CarryFrom, At;
    var (c1, data) := ScheduleData(key, c, now);
    var v1 := DataView(c, v);
    ScheduleDataKeepsValid(key, c, v, now);
    ScheduleDataFrame(key, c, now);
    StateOfSend(v, v1);
    var fin := MakeFin(key, c1);
    if c1.snd.unsent == [] {
      FinKeepsValid(key, c1, v1, now);
      FinFrame(key, c1, now);
      FinFlags(key, c1);
      SendOrder(c1.snd, v1);
    }
    var v' := ScheduleView(key, c, v, now);
    var tail := Passed(key, c, now).2;
    assert tail == [fin] || tail == [];
    assert Sends(tail, v1.nxt, v', c.rcv.nxt) by {
      if tail == [fin] {
        assert [fin][1..] == [];
      }
    }
    CarryThenFin(data, tail, v.nxt, v1.nxt, v', c.rcv.nxt);
  }

  /** A scheduling pass restores the whole invariant of a sendable connection. */
  lemma ScheduleKeepsValid(key: Key, c: Conn, v: View, now: int)
    requires CoreValid(c, v) && c.state == StateOf(v) && !v.finSent && !v.passive && !c.removal && c.timeWait.None?
    ensures var (c', segs) := Schedule(key, c, now);
            var v' := ScheduleView(key, c, v, now);
            && SyncValid(c', v') && c'.rcv == c.rcv
            && v' == v.(nxt := v'.nxt, finSent := v'.finSent, passive := v'.passive) && v.nxt <= v'.nxt
            && Sends(segs, v.nxt, v', c.rcv.nxt)
  {
    hide SendValid, StateOf, ScheduleData, MaybeSequenceFin, ScheduleView, OptValid, RttEstimator.Valid, Bounded,
         BufferValid, At, Sends, PersistEligible, UpdatePersist, Passed;
    PassedKeepsValid(key, c, v, now);
    var (c1, data, fin) := Passed(key, c, now);
    PersistKeepsRange(c1, now);
    ScheduleIsPassed(key, c, now);
    var v' := ScheduleView(key, c, v, now);
    StateIsSynchronized(v');
    PersistFrame(c1, UpdatePersist(c1, now));
  }

  lemma PersistFrame(c: Conn, c': Conn)
    requires c' == c.(persist := c'.persist)
    ensures PersistEligible(c') <==> PersistEligible(c)
  {
  }

  lemma ScheduleIsPassed(key: Key, c: Conn, now: int)
    ensures var (c1, data, fin) := Passed(key, c, now);
            Schedule(key, c, now) == (UpdatePersist(c1, now), data + fin)
  {
    hide ScheduleData, MaybeSequenceFin, UpdatePersist;
  }

  lemma StateIsSynchronized(v: View)
    ensures StateOf(v) != SynSent && StateOf(v) != SynReceived
    ensures !v.FinAcked() ==> StateOf(v) != TimeWait
  {
  }
}
