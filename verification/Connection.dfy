/**
 The connection as the table keeps it: one object whose fields the engine updates in place.

 Fields that belong together are one record each.  `Value` reads them all as one value of the step
 functions, and every method is proved to compute the step function of the same name.  `view` is the
 ghost history; `Valid` is the invariant that holds between calls.
 */
module Connections {
  import opened Primitives
  import opened SequenceSpace
  import opened Reassembly
  import opened TcpOptions
  import opened TcpSegments
  import opened TcpTypes
  import opened Receiving
  import opened RttEstimator
  import opened CongestionControl
  import opened Sending
  import opened TcpEngine
  import opened PendingQueue
  import opened ReceiveInvariant
  import opened ConnInvariant
  import opened AckPhase
  import opened ReceivePhase
  import opened ConnSteps
  import opened CallSteps
  import opened ConnRuns
  import opened Scoreboard
  import opened FragmentLists

  lemma {:induction false} EntriesAppend(a: seq<Segment>, s: Segment, now: int, rto: int)
    ensures Entries(a + [s], now, rto) == Entries(a, now, rto) + [NewPending(s.seqno, s.flags, s.payload, now, rto)]
    decreases |a|
  {
    if a == [] {
      assert a + [s] == [s] && [s][1..] == [];
    } else {
      assert (a + [s])[1..] == a[1..] + [s];
      EntriesAppend(a[1..], s, now, rto);
    }
  }

  lemma {:induction false} ClearRecoveredPrefix(p: seq<Pending>, i: nat)
    requires i < |p|
    ensures ClearRecovered(p[..i + 1]) == ClearRecovered(p[..i]) + [p[i].(recovered := false)]
    decreases |p|
  {
    if i == 0 {
      assert p[..1] == [p[0]] && p[..0] == [] && [p[0]][1..] == [];
    } else {
      ClearRecoveredPrefix(p[1..], i - 1);
      assert p[..i + 1][1..] == p[1..][..i] && p[..i][1..] == p[1..][..i - 1];
    }
  }

  lemma {:induction false} ClearScoreboardPrefix(p: seq<Pending>, i: nat)
    requires i < |p|
    ensures ClearScoreboard(p[..i + 1]) == ClearScoreboard(p[..i]) + [p[i].(sacked := false, recovered := false)]
    decreases |p|
  {
    if i == 0 {
      assert p[..1] == [p[0]] && p[..0] == [] && [p[0]][1..] == [];
    } else {
      ClearScoreboardPrefix(p[1..], i - 1);
      assert p[..i + 1][1..] == p[1..][..i] && p[..i][1..] == p[1..][..i - 1];
    }
  }

  lemma {:induction false} OwnedAppend(p: seq<Pending>, i: nat)
    requires i < |p|
    ensures OwnedInPending(p[i..]) == (if p[i].IsData() then |p[i].payload| else 0) + OwnedInPending(p[i + 1..])
  {
    assert p[i..][1..] == p[i + 1..];
  }

  /** The loop that clears the whole scoreboard. */
  method ClearMarks(p: seq<Pending>) returns (q: seq<Pending>)
    ensures q == ClearScoreboard(p)
  {
    q := [];
    for i := 0 to |p|
      invariant q == ClearScoreboard(p[..i])
    {
      ClearScoreboardPrefix(p, i);
      q := q + [p[i].(sacked := false, recovered := false)];
    }
    assert p[..|p|] == p;
  }

  /** The loop that ends a recovery episode, or starts a fresh one. */
  method ClearRecoveryMarks(p: seq<Pending>) returns (q: seq<Pending>)
    ensures q == ClearRecovered(p)
  {
    q := [];
    for i := 0 to |p|
      invariant q == ClearRecovered(p[..i])
    {
      ClearRecoveredPrefix(p, i);
      q := q + [p[i].(recovered := false)];
    }
    assert p[..|p|] == p;
  }

  /** The segmentation loop of `scheduleQueuedData`: segments and their retransmission entries. */
  method Segmentize(key: Key, c: Conn, data: seq<u8>, draining: bool, now: int)
    returns (segments: seq<Segment>, entries: seq<Pending>, seqno: u32)
    requires data == [] || c.opt.sendMss > 0
    ensures segments == Segments(key, c, c.snd.nxt, data, draining)
    ensures entries == Entries(segments, now, c.rtt.rto) && seqno == At(c.snd.nxt, |data|)
  {
    hide MakeSegment, NewPending, At, Entries;
    segments, entries, seqno := [], [], c.snd.nxt;
    var offset := 0;
    AtZero(seqno);
    assert data[0..] == data;
    assert entries == Entries(segments, now, c.rtt.rto) by { NoEntries(now, c.rtt.rto); }
    while offset < |data|
      invariant offset <= |data|
      invariant seqno == At(c.snd.nxt, offset)
      invariant segments + Segments(key, c, seqno, data[offset..], draining)
                == Segments(key, c, c.snd.nxt, data, draining)
      invariant entries == Entries(segments, now, c.rtt.rto)
    {
      var chunk := Min(c.opt.sendMss, |data| - offset);
      ghost var rest := data[offset..];
      assert rest[..chunk] == data[offset..offset + chunk] && rest[chunk..] == data[offset + chunk..];
      var last := offset + chunk == |data|;
      var segment := MakeSegment(key, c, seqno, ACK.(psh := draining && last), [], data[offset..offset + chunk]);
      EntriesAppend(segments, segment, now, c.rtt.rto);
      entries := entries + [NewPending(segment.seqno, segment.flags, segment.payload, now, c.rtt.rto)];
      AtAt(c.snd.nxt, offset, chunk);
      ghost var tail := Segments(key, c, At(seqno, chunk), rest[chunk..], draining);
      assert Segments(key, c, seqno, rest, draining) == [segment] + tail;
      assert segments + ([segment] + tail) == (segments + [segment]) + tail;
      segments := segments + [segment];
      seqno := At(seqno, chunk);
      offset := offset + chunk;
    }
    assert data[|data|..] == [];
  }

  lemma NoEntries(now: int, rto: int)
    ensures Entries([], now, rto) == []
  {
  }

  /** The loop of `retireAcknowledged`: whole entries first, then at most one trimmed entry. */
  method RetireEntries(p: seq<Pending>, ack: u32) returns (r: Retirement)
    ensures r == Retire(p, ack)
  {
    hide SeqGreater, SeqLessOrEqual, Pending.End, Sub;
    var pending := p;
    var sample: Option<int> := None;
    var keep := false;
    var dataBytes: nat := 0;
    while pending != [] && SeqLessOrEqual(pending[0].End(), ack)
      invariant Retire(p, ack) == Onward(Retire(pending, ack), dataBytes, sample)
      decreases |pending|
    {
      var entry := pending[0];
      dataBytes := dataBytes + |entry.payload|;
      if !entry.resent && !entry.sampled {
        sample := Some(entry.firstSentAt);
      }
      pending := pending[1..];
    }
    if pending != [] && SeqGreater(ack, pending[0].start) {
      var entry := pending[0];
      var trimmed := Sub(ack, entry.start);
      dataBytes := dataBytes + trimmed;
      if !entry.resent && !entry.sampled {
        sample := Some(entry.firstSentAt);
        keep := true;
      }
      pending := [entry.(start := ack, payload := Drop(entry.payload, trimmed), recovered := false)] + pending[1..];
    }
    r := Retirement(pending, dataBytes, sample, keep);
  }

  /** What the whole loop yields when `bytes` and `sample` come from the entries already erased. */
  function Onward(rest: Retirement, bytes: nat, sample: Option<int>): Retirement {
    rest.(dataBytes := bytes + rest.dataBytes, sample := if rest.sample.Some? then rest.sample else sample)
  }

  /** After retirement every data entry lies above the acknowledgment, within half the space. */
  lemma RetireCovers(c: Conn, v: View, ack: u32, now: int)
    requires SendValid(c.snd, v) && RttEstimator.Valid(c.rtt) && SeqLessOrEqual(ack, c.snd.nxt)
    ensures var s := Sending.RetireAcknowledged(c, ack, now).0.snd;
            Sub(s.nxt, ack) < HALF && forall e | e in s.pending :: InFlight(e, ack, s.nxt)
  {
    hide Retire, RecordSample, RttEstimator.Valid, SendValid, AckView, InFlight;
    RetireKeepsValid(c, v, ack, now);
    RetireFrame(c, ack, now);
    var s := Sending.RetireAcknowledged(c, ack, now).0.snd;
    assert !SeqGreater(ack, s.una);
    FlightCovers(s, AckView(c, v, ack, now), ack);
  }

  lemma FlightCovers(s: SendState, v: View, ack: u32)
    requires SendValid(s, v) && SeqLessOrEqual(ack, s.nxt) && !SeqGreater(ack, s.una)
    ensures forall e | e in s.pending :: InFlight(e, ack, s.nxt)
  {
    FlightBound(s, v);
    SendOrder(s, v);
    var u := Sub(s.una, ack);
    assert Sub(s.nxt, ack) == u + (v.nxt - v.una) by { SubSum(ack, s.una, s.nxt, v.nxt - v.una); }
    forall i: nat | i < |s.pending|
      ensures InFlight(s.pending[i], ack, s.nxt)
    {
      EntryOf(s.pending, v.una, v.nxt, v.ledger, i);
      var p := PositionOf(s.pending, v.una, i);
      SubOfPositions(v.ledger.isn, p, v.una);
      SubSum(ack, s.una, s.pending[i].start, p - v.una);
    }
  }

  lemma SubSum(ack: u32, a: u32, b: u32, d: nat)
    requires Sub(b, a) == d && Sub(a, ack) + d < MODULUS
    ensures Sub(b, ack) == Sub(a, ack) + d
  {
  }

  /** What is inserted stays inside the buffer's limit. */
  lemma UsableFits(r: RecvState, opt: Negotiated, seg: Segment)
    requires OptValid(opt) && BufferValid(r, opt) && Timely(r, opt, seg)
    requires WindowTest(r.nxt, LogicalWindow(r, opt), seg.seqno, |seg.payload|).any
    ensures var u := WindowTest(r.nxt, LogicalWindow(r, opt), seg.seqno, |seg.payload|);
            && Canonical(Runs(r), Limit(opt)) && Limit(opt) < MODULUS
            && Sub(u.start, r.nxt) + |UsablePayload(u, seg.seqno, seg.payload)| <= Limit(opt)
  {
    hide WindowTest, LogicalWindow, UsablePayload, OptValid, Canonical, InReach, StartOffset, UsableAt;
    AdvertisedWindowMeaning(r, opt);
    UsableSlice(r, opt, seg.seqno, seg.payload);
  }

  class Connection {
    var state: TcpState
    var localIsn: u32
    var remoteIsn: u32
    var remoteKnown: bool
    var snd: SendState
    var rcv: RecvState
    var opt: Negotiated
    var rtt: RttState
    var cc: Congestion
    var persist: PersistState
    var timeWait: Option<int>
    var removal: bool
    ghost var view: View

    /** A connection with the given fields: a fresh one, or the one the table holds under a key. */
    constructor (c: Conn, ghost v: View)
      ensures Value() == c && view == v
    {
      state, localIsn, remoteIsn, remoteKnown := c.state, c.localIsn, c.remoteIsn, c.remoteKnown;
      snd, rcv, opt, rtt, cc, persist := c.snd, c.rcv, c.opt, c.rtt, c.cc, c.persist;
      timeWait, removal := c.timeWait, c.removal;
      view := v;
    }

    function Value(): Conn
      reads this
    {
      Conn(state, localIsn, remoteIsn, remoteKnown, snd, rcv, opt, rtt, cc, persist, timeWait, removal)
    }

    ghost predicate Valid()
      reads this
    {
      ConnValid(Value(), view)
    }

    // -------------------------------------------------------------- sending

    /** `applyCongestionGrowth`. */
    method ApplyCongestionGrowth(dataBytes: nat)
      modifies `cc
      ensures cc == Grow(old(cc), opt.sendMss, dataBytes)
    {
      if dataBytes == 0 {
        return;
      }
      var smss: nat := opt.sendMss;
      if cc.cwnd < cc.ssthresh {
        cc := cc.(cwnd := ClampCwnd(cc.cwnd + Min(dataBytes, smss)));
      } else {
        cc := cc.(acked := cc.acked + dataBytes);
        while cc.cwnd > 0 && cc.acked >= cc.cwnd
          invariant cc == old(cc).(cwnd := cc.cwnd, acked := cc.acked)
          invariant Avoid(cc.cwnd, cc.acked, smss) == Avoid(old(cc).cwnd, old(cc).acked + dataBytes, smss)
          decreases cc.acked
        {
          cc := cc.(acked := cc.acked - cc.cwnd, cwnd := ClampCwnd(cc.cwnd + smss));
        }
      }
    }

    /** `applyTimeoutCongestionCollapse`. */
    method ApplyTimeoutCongestionCollapse()
      modifies `cc, `snd
      ensures Value() == CollapseOnTimeout(old(Value()))
    {
      hide ClearScoreboard, ClampCwnd;
      var flight := Sub(snd.nxt, snd.una);
      var smss: nat := opt.sendMss;
      cc := cc.(ssthresh := ClampCwnd(Max(flight / 2, 2 * smss)), cwnd := smss, duplicateAcks := 0,
                inRecovery := false, acked := 0);
      var cleared := ClearMarks(snd.pending);
      snd := snd.(pending := cleared);
    }

    /** `selectRecoveryRetransmission`: the loop with its early exit. */
    method SelectRecoveryRetransmission() returns (index: Option<nat>)
      ensures index == SelectRecovery(snd.pending, cc.recoveryPoint)
      ensures index.Some? ==> index.value < |snd.pending|
    {
      hide SeqGreater;
      var pending := snd.pending;
      var i := 0;
      while i < |pending|
        invariant i <= |pending|
        invariant SelectRecovery(pending, cc.recoveryPoint)
                  == Shifted(SelectRecovery(pending[i..], cc.recoveryPoint), i)
      {
        var entry := pending[i];
        assert pending[i..][1..] == pending[i + 1..];
        if entry.IsData() {
          if !SeqGreater(cc.recoveryPoint, entry.start) {
            return None;
          }
          if !entry.sacked && !entry.recovered {
            return Some(i);
          }
        }
        i := i + 1;
      }
      index := None;
    }

    /** `buildRecoveryRetransmission`. */
    method BuildRecoveryRetransmission(key: Key, index: nat, now: int) returns (segment: Segment)
      requires index < |snd.pending|
      modifies `snd
      ensures snd == old(snd).(pending := old(snd.pending)[index := Recovered(old(snd.pending)[index], now)])
      ensures segment == ResendSegment(key, old(Value()), old(snd.pending)[index])
    {
      var entry := snd.pending[index];
      segment := MakeSegment(key, Value(), entry.start, entry.flags, [], entry.payload);
      snd := snd.(pending := snd.pending[index := entry.(resent := true, recovered := true, lastSentAt := now)]);
    }

    method ResendForRecovery(key: Key, now: int) returns (segment: Option<Segment>)
      modifies `snd
      ensures (Value(), segment) == RecoveryResend(key, old(Value()), now)
    {
      hide SelectRecovery, ResendSegment;
      var index := SelectRecoveryRetransmission();
      if index.None? {
        return None;
      }
      var resent := BuildRecoveryRetransmission(key, index.value, now);
      segment := Some(resent);
    }

    /** `beginFastRecovery`. */
    method BeginFastRecovery(key: Key, now: int) returns (segment: Option<Segment>)
      modifies `cc, `snd
      ensures (Value(), segment) == Sending.BeginFastRecovery(key, old(Value()), now)
    {
      hide RecoveryResend, ClearRecovered, ClampCwnd;
      var flight := Sub(snd.nxt, snd.una);
      var smss: nat := opt.sendMss;
      var threshold := ClampCwnd(Max(flight / 2, 2 * smss));
      cc := cc.(ssthresh := threshold, recoveryPoint := snd.nxt, cwnd := ClampCwnd(threshold + 3 * smss),
                inRecovery := true, acked := 0);
      var cleared := ClearRecoveryMarks(snd.pending);
      snd := snd.(pending := cleared);
      segment := ResendForRecovery(key, now);
    }

    /** `appOwnedBytes`. */
    method AppOwnedBytes() returns (total: nat)
      ensures total == OwnedBytes(snd)
    {
      total := |snd.unsent|;
      var pending := snd.pending;
      for i := 0 to |pending|
        invariant total + OwnedInPending(pending[i..]) == OwnedBytes(snd)
      {
        OwnedAppend(pending, i);
        if pending[i].IsData() {
          total := total + |pending[i].payload|;
        }
      }
    }

    /** `maybeSequenceFin`; `segments` is the list the FIN is added to. */
    method MaybeSequenceFin(key: Key, now: int, segments: seq<Segment>) returns (out: seq<Segment>)
      modifies `snd, `state
      ensures var (c, fin) := Sending.MaybeSequenceFin(key, old(Value()), now); Value() == c && out == segments + fin
    {
      hide AvailableSendWindow, MakeSegment;
      if !snd.closeRequested || snd.finSeq.Some? || snd.unsent != [] || AvailableSendWindow(snd) < 1 {
        return segments;
      }
      var segment := MakeFin(key, Value());
      var entry := NewPending(snd.nxt, segment.flags, [], now, rtt.rto).(isFin := true);
      snd := snd.(pending := snd.pending + [entry], finSeq := Some(snd.nxt), nxt := At(snd.nxt, 1));
      state := if state == Established then FinWait1 else LastAck;
      out := segments + [segment];
    }

    /** `updatePersistState`. */
    method UpdatePersistState(now: int)
      modifies `persist
      ensures Value() == UpdatePersist(old(Value()), now)
    {
      if !PersistEligible(Value()) {
        persist := persist.(deadline := None);
        return;
      }
      if persist.deadline.None? {
        persist := persist.(interval := INITIAL_PERSIST_INTERVAL);
        persist := persist.(deadline := Some(now + persist.interval));
      }
    }

    /** The data part of `scheduleQueuedData`. */
    method ScheduleSegments(key: Key, now: int) returns (segments: seq<Segment>)
      modifies `snd
      ensures (Value(), segments) == ScheduleData(key, old(Value()), now)
    {
      hide Segments, Entries, AvailableSendWindow, AvailableCongestionWindow, At;
      var sendAvailable := Min(AvailableSendWindow(snd), AvailableCongestionWindow(snd, cc.cwnd));
      var passCap := MAX_SEGMENTS_PER_SEND * opt.sendMss;
      var toSend := Min(sendAvailable, Min(|snd.unsent|, passCap));
      var entries, seqno;
      segments, entries, seqno := Segmentize(key, Value(), snd.unsent[..toSend], toSend == |snd.unsent|, now);
      snd := snd.(pending := snd.pending + entries, unsent := snd.unsent[toSend..], nxt := seqno);
    }

    /** `scheduleQueuedData`. */
    method ScheduleQueuedData(key: Key, now: int) returns (segments: seq<Segment>)
      modifies `snd, `state, `persist
      ensures (Value(), segments) == Schedule(key, old(Value()), now)
    {
      hide ScheduleData, Sending.MaybeSequenceFin, UpdatePersist;
      segments := ScheduleSegments(key, now);
      if snd.unsent == [] {
        segments := MaybeSequenceFin(key, now, segments);
      } else {
        assert segments + [] == segments;
      }
      UpdatePersistState(now);
    }

    /** `updateSendWindow`. */
    method UpdateSendWindow(segment: Segment)
      modifies `snd
      ensures snd == Sending.UpdateSendWindow(old(snd), opt, segment)
    {
      if !(SeqGreater(segment.seqno, snd.wl1) || (segment.seqno == snd.wl1 && SeqLessOrEqual(snd.wl2, segment.ackno))) {
        return;
      }
      snd := snd.(wnd := DecodePeerWindow(opt, segment.window), wl1 := segment.seqno, wl2 := segment.ackno);
    }

    // -------------------------------------------------------------- acknowledgments

    /** `recordRttSample`. */
    method RecordRttSample(sample: int)
      modifies `rtt
      ensures rtt == RecordSample(old(rtt), sample)
    {
      if !rtt.hasSample {
        rtt := rtt.(srtt := sample, rttvar := sample / 2, hasSample := true);
      } else {
        rtt := rtt.(rttvar := (rtt.rttvar * 3 + Abs(rtt.srtt - sample)) / 4);
        rtt := rtt.(srtt := (rtt.srtt * 7 + sample) / 8);
      }
      rtt := rtt.(rto := Clamp(rtt.srtt + Max(RTO_GRANULARITY, rtt.rttvar * 4), MIN_RTO, MAX_RTO));
    }

    /** `retireAcknowledged`. */
    method RetireAcknowledged(ack: u32, now: int) returns (result: AckResult)
      modifies `snd, `rtt
      ensures (Value(), result) == Sending.RetireAcknowledged(old(Value()), ack, now)
    {
      hide SeqGreater, RecordSample, Retire;
      result := AckResult(false, 0, 0);
      if !SeqGreater(ack, snd.una) {
        return;
      }
      var space := Sub(ack, snd.una);
      var r := RetireEntries(snd.pending, ack);
      snd := snd.(una := ack, pending := r.pending);
      if r.sample.Some? && r.sample.value <= now {
        RecordRttSample(now - r.sample.value);
        if r.keep {
          snd := snd.(pending := snd.pending[0 := snd.pending[0].(sampled := true)]);
        }
      }
      result := AckResult(true, space, r.dataBytes);
    }

    /** `applySackBlocks`. */
    method ApplySackBlocks(ack: u32, blocks: seq<SackBlock>)
      requires Sub(snd.nxt, ack) < HALF && forall e | e in snd.pending :: InFlight(e, ack, snd.nxt)
      modifies `snd
      ensures snd == old(snd).(pending := MarkSacked(old(snd.pending), ack, snd.nxt, blocks))
    {
      hide MarkSacked, InFlight;
      var marked := ApplyBlocks(snd.pending, ack, snd.nxt, blocks);
      snd := snd.(pending := marked);
    }

    /** `startTimeWait`. */
    method StartTimeWait(now: int)
      modifies `state, `timeWait, `snd
      ensures Value() == TcpEngine.StartTimeWait(old(Value()), now)
    {
      state := TimeWait;
      timeWait := Some(now + TIME_WAIT_DURATION);
      snd := snd.(pending := []);
    }

    /** The congestion response of `handleSynchronized` to an advancing ACK. */
    method RespondToAdvance(key: Key, ack: u32, result: AckResult, now: int) returns (fast: Option<Segment>)
      modifies `cc, `snd
      ensures (Value(), fast) == OnAdvance(key, old(Value()), ack, result, now)
    {
      hide SeqLessOrEqual, RecoveryResend, ClearRecovered, Grow, ClampCwnd;
      fast := None;
      cc := cc.(duplicateAcks := 0);
      if cc.inRecovery {
        if SeqLessOrEqual(cc.recoveryPoint, ack) {
          cc := cc.(cwnd := cc.ssthresh, inRecovery := false, acked := 0);
          var cleared := ClearRecoveryMarks(snd.pending);
          snd := snd.(pending := cleared);
        } else {
          var smss: nat := opt.sendMss;
          var deflated := if cc.cwnd > result.space then cc.cwnd - result.space else 0;
          deflated := Max(deflated, smss);
          if result.space >= smss {
            deflated := deflated + smss;
          }
          cc := cc.(cwnd := ClampCwnd(deflated));
          fast := ResendForRecovery(key, now);
        }
      } else {
        ApplyCongestionGrowth(result.dataBytes);
      }
    }

    /** The congestion response of `handleSynchronized` to an ACK that does not advance. */
    method RespondToDuplicate(key: Key, segment: Segment, windowChanged: bool, now: int) returns (fast: Option<Segment>)
      modifies `cc, `snd
      ensures (Value(), fast) == OnDuplicate(key, old(Value()), segment, windowChanged, now)
    {
      hide RecoveryResend, Sending.BeginFastRecovery, ClampCwnd, HasOutstandingData;
      fast := None;
      if IsDuplicateAck(Value(), segment, windowChanged) {
        cc := cc.(duplicateAcks := cc.duplicateAcks + 1);
        if cc.inRecovery {
          cc := cc.(cwnd := ClampCwnd(cc.cwnd + opt.sendMss));
          if opt.sack {
            fast := ResendForRecovery(key, now);
          }
        } else if cc.duplicateAcks == 3 {
          fast := BeginFastRecovery(key, now);
        }
      } else if windowChanged {
        cc := cc.(duplicateAcks := 0);
      }
    }

    /** Retirement, the scoreboard and the peer's window. */
    method Acknowledge(segment: Segment, blocks: seq<SackBlock>, now: int, ghost v: View)
      returns (result: AckResult, windowChanged: bool)
      requires SendValid(snd, v) && RttEstimator.Valid(rtt) && SeqLessOrEqual(segment.ackno, snd.nxt)
      modifies `snd, `rtt
      ensures var (c1, r) := Sending.RetireAcknowledged(old(Value()), segment.ackno, now);
              var c2 := ApplySack(c1, segment.ackno, blocks);
              && Value() == c2.(snd := Sending.UpdateSendWindow(c2.snd, c2.opt, segment))
              && result == r && windowChanged == (snd.wnd != c2.snd.wnd)
    {
      hide SendValid, Sending.RetireAcknowledged, MarkSacked, Sending.UpdateSendWindow, SeqLessOrEqual,
           RttEstimator.Valid, InFlight;
      RetireFrame(Value(), segment.ackno, now);
      RetireCovers(Value(), v, segment.ackno, now);
      result := RetireAcknowledged(segment.ackno, now);
      if opt.sack {
        ApplySackBlocks(segment.ackno, blocks);
      }
      var wndBefore := snd.wnd;
      UpdateSendWindow(segment);
      windowChanged := snd.wnd != wndBefore;
    }

    /** What the acknowledgment of the local FIN does to the state. */
    method FollowFin(now: int)
      modifies `state, `timeWait, `snd, `removal
      ensures Value() == OnFinAcked(old(Value()), now)
    {
      hide LocalFinAcked, TcpEngine.StartTimeWait;
      var finAcked := LocalFinAcked(snd);
      if state == FinWait1 && finAcked {
        state := FinWait2;
      } else if state == Closing && finAcked {
        StartTimeWait(now);
      } else if state == LastAck && finAcked {
        removal := true;
      }
    }

    /** The acknowledgment part of `handleSynchronized`. */
    method ProcessAcknowledgment(key: Key, segment: Segment, blocks: seq<SackBlock>, now: int, ghost v: View)
      returns (fast: Option<Segment>)
      requires SendValid(snd, v) && RttEstimator.Valid(rtt) && SeqLessOrEqual(segment.ackno, snd.nxt)
      modifies `snd, `rtt, `cc, `state, `timeWait, `removal
      ensures (Value(), fast) == ProcessAck(key, old(Value()), segment, blocks, now)
    {
      hide SendValid, Sending.RetireAcknowledged, ApplySack, Sending.UpdateSendWindow, OnAdvance, OnDuplicate,
           SeqLessOrEqual, RttEstimator.Valid, OnFinAcked;
      var result, windowChanged := Acknowledge(segment, blocks, now, v);
      if result.advanced {
        fast := RespondToAdvance(key, segment.ackno, result, now);
      } else {
        fast := RespondToDuplicate(key, segment, windowChanged, now);
      }
      FollowFin(now);
    }

    // -------------------------------------------------------------- receiving

    /** `insertReassemblyFragment`. */
    method InsertReassemblyFragment(start: u32, payload: seq<u8>, ghost hi: nat)
      requires Canonical(Runs(rcv), hi) && hi < MODULUS && Sub(start, rcv.nxt) + |payload| <= hi
      modifies `rcv
      ensures rcv == old(rcv).(fragments := InsertFragment(old(rcv.fragments), rcv.nxt, start, payload))
    {
      hide Canonical, InsertFragment;
      var inserted := InsertIntoFragments(rcv.fragments, rcv.nxt, start, payload, hi);
      rcv := rcv.(fragments := inserted);
    }

    /** `releaseContiguous`. */
    method ReleaseContiguous() returns (released: seq<u8>)
      modifies `rcv
      ensures var (bytes, nxt, rest) := Release(old(rcv.nxt), old(rcv.fragments));
              released == bytes && rcv == old(rcv).(nxt := nxt, fragments := rest)
    {
      hide Release;
      var nxt, rest;
      released, nxt, rest := ReleaseFragments(rcv.nxt, rcv.fragments);
      rcv := rcv.(nxt := nxt, fragments := rest);
    }

    /** Stepping over the peer's FIN. */
    method ConsumePeerFin(now: int)
      modifies `rcv, `state, `timeWait, `snd
      ensures Value() == ConsumeFin(old(Value()), now)
    {
      rcv := rcv.(nxt := At(rcv.nxt, 1), pendingFin := None);
      if state == Established {
        state := CloseWait;
      } else if state == FinWait1 {
        state := Closing;
      } else if state == FinWait2 {
        StartTimeWait(now);
      }
    }

    /** The payload and FIN part of `handleSynchronized`. */
    method ReceivePayload(segment: Segment, now: int)
      returns (accepted: seq<u8>, peerClosed: bool, mostRecent: Option<u32>)
      requires OptValid(opt) && BufferValid(rcv, opt) && Timely(rcv, opt, segment)
      modifies `rcv, `state, `timeWait, `snd
      ensures var got := Receive(old(Value()), segment, now);
              Value() == got.conn && accepted == got.accepted && peerClosed == got.peerClosed
              && mostRecent == got.mostRecent
    {
      hide OptValid, BufferValid, Timely, WindowTest, LogicalWindow, UsablePayload, InsertFragment, Release, ConsumeFin,
           MostRecent, FinInWindow, UsableAt;
      ghost var c := Value();
      var u := WindowTest(rcv.nxt, LogicalWindow(rcv, opt), segment.seqno, |segment.payload|);
      var finAccepted := FinAccepted(Value(), segment);
      mostRecent := None;
      if u.any {
        UsableFits(rcv, opt, segment);
        InsertReassemblyFragment(u.start, UsablePayload(u, segment.seqno, segment.payload), Limit(opt));
        mostRecent := FindFragment(rcv.fragments, u.start);
      }
      if finAccepted {
        rcv := rcv.(pendingFin := Some(At(segment.seqno, |segment.payload|)));
      }
      assert rcv == Absorb(c, segment);
      accepted := ReleaseContiguous();
      peerClosed := rcv.pendingFin == Some(rcv.nxt);
      if peerClosed {
        ConsumePeerFin(now);
      }
    }

    // -------------------------------------------------------------- arriving segments

    method ScheduleIfSendable(key: Key, now: int) returns (segments: seq<Segment>)
      modifies `snd, `state, `persist
      ensures (Value(), segments) == TcpEngine.ScheduleIfSendable(key, old(Value()), now)
    {
      hide Schedule, UpdatePersist;
      if !removal && (state == Established || state == CloseWait) {
        segments := ScheduleQueuedData(key, now);
      } else {
        UpdatePersistState(now);
        segments := [];
      }
    }

    /** `handleSynchronized` after acknowledgment processing. */
    method AfterAcknowledgment(key: Key, segment: Segment, fast: Option<Segment>, now: int)
      returns (result: ReceiveResult)
      requires OptValid(opt) && BufferValid(rcv, opt) && Timely(rcv, opt, segment)
      modifies `rcv, `state, `timeWait, `snd, `persist
      ensures (Value(), result) == AfterAck(key, old(Value()), segment, fast, now)
    {
      hide OptValid, BufferValid, Timely, TcpEngine.ScheduleIfSendable, MakePureAck, Receive, AnyPayloadInWindow,
           FinAccepted;
      result := NOTHING.(fastRetransmit := fast);
      if segment.payload == [] && !segment.flags.fin {
        result := result.(closed := removal);
        var scheduled := ScheduleIfSendable(key, now);
        result := result.(scheduled := scheduled);
        if HasSackToReport(Value()) {
          result := result.(reply := Some(MakePureAck(key, Value(), None)));
        }
        return;
      }
      if !AnyPayloadInWindow(Value(), segment) && !FinAccepted(Value(), segment) {
        var scheduled := ScheduleIfSendable(key, now);
        result := result.(scheduled := scheduled);
        if scheduled == [] || HasSackToReport(Value()) {
          result := result.(reply := Some(MakePureAck(key, Value(), None)));
        }
        return;
      }
      var accepted, peerClosed, mostRecent := ReceivePayload(segment, now);
      var scheduled := ScheduleIfSendable(key, now);
      result := result.(accepted := accepted, peerClosed := peerClosed, scheduled := scheduled);
      if (accepted == [] && scheduled == []) || HasSackToReport(Value()) {
        result := result.(reply := Some(MakePureAck(key, Value(), mostRecent)));
      }
    }

    /** `handleSynchronized`. */
    method HandleSynchronized(key: Key, segment: Segment, now: int) returns (result: ReceiveResult)
      requires SyncValid(Value(), view) && state != TimeWait && (!segment.flags.rst ==> Timely(rcv, opt, segment))
      modifies `rcv, `state, `timeWait, `snd, `persist, `rtt, `cc, `removal
      ensures (Value(), result) == TcpEngine.HandleSynchronized(key, old(Value()), segment, now)
    {
      hide SyncValid, Timely, ProcessAck, AfterAck, MakePureAck, ParseOptions, CoreValid, ProcessAckView, StepState,
           FastOk, OnlyAck;
      if segment.flags.syn {
        if !IsDuplicateSynAck(Value(), segment) {
          return NOTHING;
        }
        return Replying(MakePureAck(key, Value(), None));
      }
      var options := ParseTcpOptions(segment.options);
      if options.Err? {
        return NOTHING;
      }
      if segment.flags.rst {
        if segment.seqno == rcv.nxt {
          removal := true;
          return NOTHING.(reset := true);
        }
        return NOTHING;
      }
      if !segment.flags.ack || !SeqLessOrEqual(segment.ackno, snd.nxt) {
        return NOTHING;
      }
      SyncIsCore(Value(), view);
      CoreParts(Value(), view);
      ProcessAckKeepsValid(key, Value(), view, segment, options.value.sackBlocks, now);
      ghost var v1 := ProcessAckView(Value(), view, segment, options.value.sackBlocks, now);
      var fast := ProcessAcknowledgment(key, segment, options.value.sackBlocks, now, view);
      CoreParts(Value(), v1);
      result := AfterAcknowledgment(key, segment, fast, now);
    }

    /** The negotiated options of the peer's SYN or SYN-ACK. */
    method AdoptOptions(options: ParsedOptions)
      modifies `opt, `cc
      ensures opt == Negotiate(options) && cc == old(cc).(cwnd := InitialCwnd(opt.sendMss))
    {
      var mss := if options.mss.Some? then options.mss.value else DEFAULT_PEER_MSS;
      opt := Negotiated(mss, Min(TCP_MSS, mss), 0, 0, false, false);
      cc := cc.(cwnd := InitialCwnd(opt.sendMss));
      if options.windowScale.Some? {
        opt := opt.(scaling := true, peerScale := Min(options.windowScale.value, MAX_WINDOW_SCALE),
                    localScale := LOCAL_WINDOW_SCALE);
      }
      opt := opt.(sack := options.sackPermitted);
    }

    /** The end of `handleSynSent`: the SYN-ACK completes the active open. */
    method CompleteConnect(key: Key, segment: Segment, options: ParsedOptions, now: int) returns (result: ReceiveResult)
      modifies `rcv, `state, `snd, `rtt, `cc, `opt, `remoteIsn, `remoteKnown
      ensures var c := old(Value());
              var o := Negotiate(options);
              var c1 := c.(remoteIsn := segment.seqno, remoteKnown := true, rcv := c.rcv.(nxt := At(segment.seqno, 1)),
                           opt := o, cc := c.cc.(cwnd := InitialCwnd(o.sendMss)), state := Established);
              var c2 := Sending.RetireAcknowledged(c1, segment.ackno, now).0;
              var c3 := c2.(snd := c2.snd.(wnd := segment.window, wl1 := segment.seqno, wl2 := segment.ackno));
              Value() == c3 && result == Replying(MakeSegment(key, c3, c3.snd.nxt, ACK, [], [])).(established := true)
    {
      hide Sending.RetireAcknowledged, Negotiate, InitialCwnd, MakeSegment, At;
      remoteIsn := segment.seqno;
      remoteKnown := true;
      rcv := rcv.(nxt := At(segment.seqno, 1));
      AdoptOptions(options);
      state := Established;
      var _ := RetireAcknowledged(segment.ackno, now);
      snd := snd.(wnd := segment.window, wl1 := segment.seqno, wl2 := segment.ackno);
      var finalAck := MakeSegment(key, Value(), snd.nxt, ACK, [], []);
      result := Replying(finalAck).(established := true);
    }

    /** `handleSynSent`. */
    method HandleSynSent(key: Key, segment: Segment, now: int) returns (result: ReceiveResult)
      modifies `rcv, `state, `snd, `rtt, `cc, `opt, `remoteIsn, `remoteKnown, `removal
      ensures (Value(), result) == TcpEngine.HandleSynSent(key, old(Value()), segment, now)
    {
      hide ParseOptions, Sending.RetireAcknowledged, Negotiate, InitialCwnd, MakeSegment, At;
      var options := ParseTcpOptions(segment.options);
      if options.Err? {
        return NOTHING;
      }
      if segment.flags.rst {
        if segment.flags.ack && segment.ackno == snd.nxt {
          removal := true;
          return NOTHING.(reset := true);
        }
        return NOTHING;
      }
      if !segment.flags.syn || !segment.flags.ack || segment.flags.fin || segment.payload != []
         || segment.ackno != snd.nxt {
        return NOTHING;
      }
      result := CompleteConnect(key, segment, options.value, now);
    }

    /** `handleTimeWait`. */
    method HandleTimeWait(key: Key, segment: Segment, now: int) returns (result: ReceiveResult)
      modifies `timeWait, `removal
      ensures (Value(), result) == TcpEngine.HandleTimeWait(key, old(Value()), segment, now)
    {
      hide MakePureAck;
      if segment.flags.rst {
        if segment.seqno == rcv.nxt {
          removal := true;
        }
        return NOTHING;
      }
      if segment.flags.syn || segment.payload != [] {
        return NOTHING;
      }
      if segment.flags.fin && At(segment.seqno, 1) == rcv.nxt {
        timeWait := Some(now + TIME_WAIT_DURATION);
        return Replying(MakePureAck(key, Value(), None));
      }
      result := NOTHING;
    }

    /** The SYN-RECEIVED part of `handle`. */
    method HandleSynReceived(key: Key, segment: Segment, now: int) returns (result: ReceiveResult)
      modifies `rcv, `state, `snd, `rtt, `removal
      ensures (Value(), result) == TcpEngine.HandleSynReceived(key, old(Value()), segment, now)
    {
      hide MakeSynAck, Sending.RetireAcknowledged, DecodePeerWindow;
      result := NOTHING;
      if segment.flags.rst {
        if segment.seqno == At(remoteIsn, 1) {
          removal := true;
        }
        return;
      }
      if segment.flags.syn && !segment.flags.ack {
        if segment.seqno == remoteIsn {
          result := Replying(MakeSynAck(key, Value()));
          if snd.pending != [] {
            snd := snd.(pending := snd.pending[0 := snd.pending[0].(lastSentAt := now)]);
          }
          assert MakeSynAck(key, Value()) == MakeSynAck(key, old(Value())) by {
            SynAckFrame(key, Value(), old(Value()));
          }
        }
        return;
      }
      if segment.flags.ack && !segment.flags.syn && segment.ackno == At(localIsn, 1)
         && segment.seqno == At(remoteIsn, 1) {
        state := Established;
        rcv := rcv.(nxt := At(remoteIsn, 1));
        snd := snd.(una := localIsn, nxt := At(localIsn, 1));
        var _ := RetireAcknowledged(At(localIsn, 1), now);
        snd := snd.(wnd := DecodePeerWindow(opt, segment.window), wl1 := segment.seqno, wl2 := segment.ackno);
      }
    }

    /** `handle` for an existing connection: the step, and the invariant it keeps. */
    method Handle(key: Key, segment: Segment, now: int) returns (result: ReceiveResult)
      requires Valid() && TimelyEvent(Value(), Deliver(segment))
      modifies this
      ensures (Value(), result) == TcpEngine.Handle(key, old(Value()), segment, now)
      ensures view == HandleView(key, old(Value()), old(view), segment, now)
      ensures Handled(Value(), result, old(view), view)
    {
      hide SyncValid, SynSentValid, SynReceivedValid, Timely, Handled, HandleView, TcpEngine.HandleSynchronized,
           TcpEngine.HandleSynSent, TcpEngine.HandleTimeWait, TcpEngine.HandleSynReceived;
      HandleKeepsValid(key, Value(), view, segment, now);
      ghost var v := HandleView(key, Value(), view, segment, now);
      if state == TimeWait {
        result := HandleTimeWait(key, segment, now);
      } else if state == SynSent {
        result := HandleSynSent(key, segment, now);
      } else if state != SynReceived {
        result := HandleSynchronized(key, segment, now);
      } else {
        result := HandleSynReceived(key, segment, now);
      }
      view := v;
    }

    // -------------------------------------------------------------- application calls

    /** `makeOutgoingData`. */
    method MakeOutgoingData(key: Key, payload: seq<u8>, now: int) returns (result: Result<seq<Segment>, SendError>)
      requires Valid()
      modifies this
      ensures (Value(), result) == TcpEngine.MakeOutgoingData(key, old(Value()), payload, now)
      ensures Valid() && view == SendView(key, old(Value()), old(view), payload, now)
    {
      hide ConnValid, Schedule, SendView, OwnedBytes;
      SendKeepsValid(key, Value(), view, payload, now);
      ghost var v := SendView(key, Value(), view, payload, now);
      view := v;
      if payload == [] {
        return Err(EmptyPayload);
      }
      if |payload| > MAX_APPLICATION_SEND {
        return Err(TooLarge);
      }
      if (state != Established && state != CloseWait) || snd.closeRequested {
        return Err(NotSendable);
      }
      var owned := AppOwnedBytes();
      var remaining := if owned >= SEND_BUFFER_CAPACITY then 0 else SEND_BUFFER_CAPACITY - owned;
      if |payload| > remaining {
        return Err(BufferFull);
      }
      snd := snd.(unsent := snd.unsent + payload);
      var segments := ScheduleQueuedData(key, now);
      result := Ok(segments);
    }

    /** `beginClose`. */
    method BeginClose(key: Key, now: int) returns (result: CloseResult)
      requires Valid()
      modifies this
      ensures (Value(), result) == TcpEngine.BeginClose(key, old(Value()), now)
      ensures Valid() && view == CloseView(old(Value()), old(view))
    {
      hide ConnValid, Sending.MaybeSequenceFin, UpdatePersist, CloseView;
      CloseKeepsValid(key, Value(), view, now);
      ghost var v := CloseView(Value(), view);
      view := v;
      if state != Established && state != CloseWait {
        return CloseResult(false, None);
      }
      snd := snd.(closeRequested := true);
      var segments := MaybeSequenceFin(key, now, []);
      result := CloseResult(true, if segments == [] then None else Some(segments[0]));
      UpdatePersistState(now);
    }

    // -------------------------------------------------------------- timers

    /** The resend of `pollRetransmissions`. */
    method ResendOldest(key: Key, now: int) returns (segment: Segment)
      requires snd.pending != []
      modifies `snd, `cc, `rtt
      ensures (Value(), segment) == TcpEngine.ResendOldest(key, old(Value()), now)
    {
      hide TimeoutSegment, ClearScoreboard, Collapse, BackOff;
      var oldest := snd.pending[0];
      if oldest.IsData() {
        ApplyTimeoutCongestionCollapse();
        oldest := snd.pending[0];
      }
      segment := TimeoutSegment(key, Value(), oldest);
      oldest := oldest.(timeouts := oldest.timeouts + 1, resent := true, lastSentAt := now,
                        interval := BackOff(oldest.interval));
      snd := snd.(pending := snd.pending[0 := oldest]);
      rtt := rtt.(rto := Max(rtt.rto, oldest.interval));
    }

    /** One connection's turn in `pollRetransmissions`. */
    method PollRetransmission(key: Key, now: int) returns (outcome: PollOutcome)
      requires Valid()
      modifies this
      ensures (Value(), outcome) == TcpEngine.PollRetransmission(key, old(Value()), now)
      ensures view == PollView(old(Value()), old(view), now) && (!removal ==> Valid())
    {
      hide ConnValid, TcpEngine.ResendOldest, PollView, Extends, Quiet;
      PollKeepsValid(key, Value(), view, now);
      ghost var v := PollView(Value(), view, now);
      view := v;
      if state == TimeWait {
        if timeWait.Some? && now >= timeWait.value {
          removal := true;
          return TimeWaitExpired;
        }
        return Idle;
      }
      if snd.pending == [] {
        return Idle;
      }
      var oldest := snd.pending[0];
      if now < oldest.lastSentAt + oldest.interval {
        return Idle;
      }
      if oldest.timeouts >= MAX_RETRANSMITS {
        removal := true;
        return TimedOut;
      }
      var segment := ResendOldest(key, now);
      outcome := Resent(segment);
    }

    /** One connection's turn in `pollPersistProbes`. */
    method ProbeIfDue(key: Key, now: int) returns (probe: Option<Segment>)
      modifies `persist
      ensures (Value(), probe) == TcpEngine.PollPersist(key, old(Value()), now)
    {
      hide MakeSegment, PersistEligible;
      if persist.deadline.None? || now < persist.deadline.value {
        return None;
      }
      if !PersistEligible(Value()) {
        persist := persist.(deadline := None);
        return None;
      }
      EligibleHasData(Value());
      probe := Some(MakeSegment(key, Value(), Sub(snd.nxt, 1), ACK, [], snd.unsent[..1]));
      persist := persist.(interval := Min(persist.interval * 2, MAX_PERSIST_INTERVAL));
      persist := persist.(deadline := Some(now + persist.interval));
    }

    /** The same turn of a valid connection: it stays valid. */
    method PollPersist(key: Key, now: int) returns (probe: Option<Segment>)
      requires Valid()
      modifies `persist
      ensures (Value(), probe) == TcpEngine.PollPersist(key, old(Value()), now) && Valid()
    {
      hide ConnValid, TcpEngine.PollPersist;
      PersistKeepsValid(key, Value(), view, now);
      probe := ProbeIfDue(key, now);
    }
  }

  lemma EligibleHasData(c: Conn)
    requires PersistEligible(c)
    ensures c.snd.unsent != []
  {
  }

  lemma SynAckFrame(key: Key, c: Conn, c': Conn)
    requires c == c'.(snd := c.snd)
    ensures MakeSynAck(key, c) == MakeSynAck(key, c')
  {
  }

  lemma CoreParts(c: Conn, v: View)
    requires CoreValid(c, v)
    ensures SendValid(c.snd, v) && RttEstimator.Valid(c.rtt) && OptValid(c.opt) && BufferValid(c.rcv, c.opt)
  {
  }

  function Shifted(i: Option<nat>, n: nat): Option<nat> { if i.Some? then Some(i.value + n) else None }
}
