/** Acknowledgment processing: retirement, scoreboard, window update and the congestion response. */
module AckPhase {
  import opened Primitives
  import opened SequenceSpace
  import opened TcpOptions
  import opened TcpSegments
  import opened TcpTypes
  import opened RttEstimator
  import opened CongestionControl
  import opened Sending
  import opened TcpEngine
  import opened PendingQueue
  import opened ReceiveInvariant
  import opened ConnInvariant

  // ---------------------------------------------------------------- recovery selection

  predicate Resendable(e: Pending, pos: nat, point: nat) {
    e.IsData() && pos < point && !e.sacked && !e.recovered
  }

  /** The full scan: the lowest entry that may be resent, with no early exit. */
  function LowestResendable(pending: seq<Pending>, pos: nat, point: nat): Option<nat> {
    if pending == [] then None
    else if Resendable(pending[0], pos, point) then Some(0)
    else Next(LowestResendable(pending[1..], pos + pending[0].Length(), point))
  }

  /** Past the recovery point nothing can be resent, so leaving early loses nothing. */
  lemma {:induction false} NothingPastPoint(pending: seq<Pending>, pos: nat, point: nat)
    requires point <= pos
    ensures LowestResendable(pending, pos, point).None?
    decreases |pending|
  {
    if pending != [] {
      NothingPastPoint(pending[1..], pos + pending[0].Length(), point);
    }
  }

  /** The early exit of the selection loop equals the full scan. */
  lemma {:induction false} SelectIsFullScan(pending: seq<Pending>, pos: nat, end: nat, l: Ledger, point: nat)
    requires Tiles(pending, pos, end, l) && end <= pos + REACH && point <= pos + REACH && pos <= point + REACH
    ensures SelectRecovery(pending, At(l.isn, point)) == LowestResendable(pending, pos, point)
    decreases |pending|
  {
    if pending != [] {
      hide MarksAt;
      var e := pending[0];
      var next := pos + e.Length();
      TilesOrdered(pending, pos, end, l);
      TilesOrdered(pending[1..], next, end, l);
      ComparePositions(l.isn, point, pos);
      if e.IsData() && point <= pos {
        NothingPastPoint(pending, pos, point);
      } else if next <= point + REACH {
        SelectIsFullScan(pending[1..], next, end, l, point);
      }
    }
  }

  lemma {:induction false} LowestIsResendable(pending: seq<Pending>, pos: nat, point: nat)
    ensures var i := LowestResendable(pending, pos, point);
            && (i.Some? ==>
                  i.value < |pending| && Resendable(pending[i.value], PositionOf(pending, pos, i.value), point))
            && (forall j: nat | j < |pending| && Resendable(pending[j], PositionOf(pending, pos, j), point) ::
                  i.Some? && i.value <= j)
    decreases |pending|
  {
    if pending != [] {
      var next := pos + pending[0].Length();
      LowestIsResendable(pending[1..], next, point);
      forall j: nat | j < |pending| && Resendable(pending[j], PositionOf(pending, pos, j), point)
        ensures var i := LowestResendable(pending, pos, point); i.Some? && i.value <= j
      {
        if j > 0 {
          assert PositionOf(pending, pos, j) == PositionOf(pending[1..], next, j - 1);
          assert Resendable(pending[1..][j - 1], PositionOf(pending[1..], next, j - 1), point);
        }
      }
    }
  }

  // ---------------------------------------------------------------- recovery resend

  /** The history after a recovery resend from `pending`. */
  function RecoverView(pending: seq<Pending>, v: View): View {
    var i := LowestResendable(pending, v.una, v.point);
    if i.None? || i.value >= |pending| then v
    else
      var p := PositionOf(pending, v.una, i.value);
      v.(ledger := ResentAt(v.ledger, p, p + pending[i.value].Length()))
  }

  /** A segment from the queue: the stream slice at its position, acknowledging `ackno`. */
  predicate ResendOf(seg: Segment, ackno: u32, v: View, p: nat) {
    && v.una <= p && p + |seg.payload| <= v.nxt && p <= |v.ledger.stream|
    && seg.seqno == At(v.ledger.isn, p) && seg.ackno == ackno
    && seg.payload != [] && Carries(seg.payload, p, v.ledger.stream) && PlainFlags(seg.flags)
  }

  /** The resend stands at `p`, before the recovery point, and is on record with its end. */
  predicate RecordedAt(seg: Segment, ackno: u32, v': View, p: nat) {
    && ResendOf(seg, ackno, v', p) && p < v'.point
    && p in v'.ledger.episode && p + |seg.payload| in v'.ledger.resent
  }

  /** A resend at a position that was not resent before in the episode. */
  ghost predicate FreshResend(seg: Segment, ackno: u32, before: set<nat>, v': View) {
    exists p: nat :: RecordedAt(seg, ackno, v', p) && p !in before
  }

  /** A recovery resend, in positions. */
  lemma RecoveryCases(key: Key, c: Conn, v: View, now: int)
    requires SendValid(c.snd, v) && c.cc.recoveryPoint == At(v.ledger.isn, v.point) && v.una <= v.point <= v.nxt
    ensures var pending := c.snd.pending;
            var i := LowestResendable(pending, v.una, v.point);
            var (c', fast) := RecoveryResend(key, c, now);
            if i.None? then c' == c && fast.None? && RecoverView(pending, v) == v
            else
              && i.value < |pending| && Resendable(pending[i.value], PositionOf(pending, v.una, i.value), v.point)
              && c' == c.(snd := c.snd.(pending := pending[i.value := Recovered(pending[i.value], now)]))
              && fast == Some(ResendSegment(key, c, pending[i.value]))
              && var p := PositionOf(pending, v.una, i.value);
                 RecoverView(pending, v) == v.(ledger := ResentAt(v.ledger, p, p + pending[i.value].Length()))
  {
    hide Tiles, At, HistoryBelow, QueueSplit, ResendSegment, SelectRecovery, LowestResendable, PositionOf, Resendable,
         Pending.Length;
    FlightBound(c.snd, v);
    SelectIsFullScan(c.snd.pending, v.una, v.nxt, v.ledger, v.point);
    LowestIsResendable(c.snd.pending, v.una, v.point);
  }

  lemma RecoveredSendValid(s: SendState, v: View, i: nat, now: int)
    requires SendValid(s, v) && i < |s.pending|
    ensures var p := PositionOf(s.pending, v.una, i);
            SendValid(s.(pending := s.pending[i := Recovered(s.pending[i], now)]),
                      v.(ledger := ResentAt(v.ledger, p, p + s.pending[i].Length())))
  {
    hide Tiles, At, HistoryBelow, PositionOf, Recovered, Pending.Length, ContentAt, MarksAt;
    var p := PositionOf(s.pending, v.una, i);
    EntryOf(s.pending, v.una, v.nxt, v.ledger, i);
    TilesRecovered(s.pending, v.una, v.nxt, v.ledger, i, now);
    HistoryGrows(v.ledger, v.nxt, p, p + s.pending[i].Length());
  }

  lemma RecoveredIsFresh(key: Key, c: Conn, v: View, i: nat)
    requires SendValid(c.snd, v) && i < |c.snd.pending|
             && Resendable(c.snd.pending[i], PositionOf(c.snd.pending, v.una, i), v.point)
    ensures var p := PositionOf(c.snd.pending, v.una, i);
            FreshResend(ResendSegment(key, c, c.snd.pending[i]), c.rcv.nxt, v.ledger.episode,
                        v.(ledger := ResentAt(v.ledger, p, p + c.snd.pending[i].Length())))
  {
    hide Tiles, At, HistoryBelow, QueueSplit, PositionOf, ContentAt, ResendOf;
    var p := PositionOf(c.snd.pending, v.una, i);
    EntryOf(c.snd.pending, v.una, v.nxt, v.ledger, i);
    PlainEntry(key, c, v, i);
    var v' := v.(ledger := ResentAt(v.ledger, p, p + c.snd.pending[i].Length()));
    ResendSameView(ResendSegment(key, c, c.snd.pending[i]), c.rcv.nxt, v, v', p);
  }

  /**
   A recovery resend keeps the send side valid.  The segment carries the slice at its position,
   that position was not resent before in this episode, and the record of the episode only grows.
   */
  lemma RecoveryKeepsValid(key: Key, c: Conn, v: View, now: int)
    requires SendValid(c.snd, v) && c.cc.recoveryPoint == At(v.ledger.isn, v.point) && v.una <= v.point <= v.nxt
    ensures var (c', fast) := RecoveryResend(key, c, now);
            var v' := RecoverView(c.snd.pending, v);
            && SendValid(c'.snd, v')
            && v' == v.(ledger := v.ledger.(resent := v'.ledger.resent, episode := v'.ledger.episode))
            && v.ledger.episode <= v'.ledger.episode
            && (fast.None? ==> v' == v)
            && (fast.Some? ==> FreshResend(fast.value, c.rcv.nxt, v.ledger.episode, v'))
  {
    hide SendValid, RecoveryResend, RecoverView, FreshResend, LowestResendable, PositionOf, Pending.Length,
         ResendSegment, At, Recovered;
    RecoveryCases(key, c, v, now);
    var i := LowestResendable(c.snd.pending, v.una, v.point);
    if i.Some? {
      RecoveredSendValid(c.snd, v, i.value, now);
      RecoveredIsFresh(key, c, v, i.value);
    }
  }

  lemma RecoveryFrame(key: Key, c: Conn, now: int)
    ensures var c' := RecoveryResend(key, c, now).0; c' == c.(snd := c.snd.(pending := c'.snd.pending))
  {
  }

  lemma SendOrder(s: SendState, v: View)
    requires SendValid(s, v)
    ensures 1 <= v.una <= v.nxt && s.nxt == At(v.ledger.isn, v.nxt) && Tiles(s.pending, v.una, v.nxt, v.ledger)
  {
  }

  lemma HistoryGrows(l: Ledger, nxt: nat, p: nat, end: nat)
    requires HistoryBelow(l, nxt) && p < nxt && end <= nxt
    ensures HistoryBelow(ResentAt(l, p, end), nxt)
  {
  }

  lemma PlainEntry(key: Key, c: Conn, v: View, i: nat)
    requires i < |c.snd.pending| && c.snd.pending[i].IsData()
    requires var p := PositionOf(c.snd.pending, v.una, i);
             && v.una <= p && p + c.snd.pending[i].Length() <= v.nxt
             && ContentAt(c.snd.pending[i], p, v.ledger.isn, v.ledger.stream)
    ensures ResendOf(ResendSegment(key, c, c.snd.pending[i]), c.rcv.nxt, v, PositionOf(c.snd.pending, v.una, i))
  {
  }

  // ---------------------------------------------------------------- the congestion response

  function OverView(v: View): View { v.(ledger := v.ledger.(episode := {})) }

  function AdvanceView(c: Conn, v: View, ack: u32): View {
    if !c.cc.inRecovery then v
    else if SeqLessOrEqual(c.cc.recoveryPoint, ack) then OverView(v)
    else RecoverView(c.snd.pending, v)
  }

  function DuplicateView(c: Conn, v: View, seg: Segment, windowChanged: bool): View {
    if !IsDuplicateAck(c, seg, windowChanged) then v
    else if c.cc.inRecovery then if c.opt.sack then RecoverView(c.snd.pending, v) else v
    else if c.cc.duplicateAcks + 1 == 3 then RecoverView(ClearRecovered(c.snd.pending), OverView(v).(point := v.nxt))
    else v
  }

  /** An immediate resend: a slice of the stream, at a position new to a continuing episode. */
  ghost predicate FastOk(fast: Option<Segment>, ackno: u32, continuing: bool, before: set<nat>, v': View) {
    fast.Some? ==> exists p: nat :: RecordedAt(fast.value, ackno, v', p) && (continuing ==> p !in before)
  }

  /** A resend belongs to an episode; while one continues, its point stays and its record only grows. */
  predicate EpisodeKept(before: Congestion, v: View, after: Congestion, fast: Option<Segment>, v': View) {
    && (before.inRecovery && after.inRecovery ==> v'.point == v.point && v.ledger.episode <= v'.ledger.episode)
    && (fast.Some? ==> after.inRecovery)
  }

  /** The part of a view an acknowledgment response may change. */
  predicate OnlyHistory(v: View, v': View) {
    v' == v.(point := v'.point, ledger := v.ledger.(resent := v'.ledger.resent, episode := v'.ledger.episode))
  }

  lemma EpisodeOver(s: SendState, v: View, cleared: seq<Pending>)
    requires SendValid(s, v) && SameEntries(s.pending, cleared)
    ensures SendValid(s.(pending := cleared), OverView(v))
  {
    hide Tiles, At;
    TilesCleared(s.pending, cleared, v.una, v.nxt, v.ledger);
  }

  /** What every congestion response leaves behind. */
  ghost predicate ResponseOk(c: Conn, v: View, c': Conn, fast: Option<Segment>, v': View) {
    && SendValid(c'.snd, v') && RecoveryValid(c', v')
    && OnlyHistory(v, v') && FastOk(fast, c.rcv.nxt, c.cc.inRecovery, v.ledger.episode, v')
    && EpisodeKept(c.cc, v, c'.cc, fast, v')
  }

  lemma FreshIsOk(fast: Option<Segment>, ackno: u32, before: set<nat>, v': View)
    requires fast.Some? ==> FreshResend(fast.value, ackno, before, v')
    ensures FastOk(fast, ackno, true, before, v') && FastOk(fast, ackno, false, before, v')
  {
  }

  lemma FastAnyway(fast: Option<Segment>, ackno: u32, before: set<nat>, other: set<nat>, v': View)
    requires FastOk(fast, ackno, false, before, v')
    ensures FastOk(fast, ackno, false, other, v')
  {
  }

  /** The resend of a continuing recovery. */
  lemma ContinueKeepsValid(key: Key, c: Conn, v: View, c2: Conn, now: int)
    requires SendValid(c.snd, v) && c2 == c.(cc := c2.cc) && Bounded(c2.cc, c.opt.sendMss) && c2.cc.inRecovery
             && c.cc.inRecovery
    requires c2.cc.recoveryPoint == At(v.ledger.isn, v.point) && v.una < v.point <= v.nxt
    ensures var (c', fast) := RecoveryResend(key, c2, now); ResponseOk(c, v, c', fast, RecoverView(c.snd.pending, v))
  {
    hide SendValid, RecoveryResend, RecoverView, At, FreshResend, FastOk, Bounded;
    RecoveryKeepsValid(key, c2, v, now);
    RecoveryFrame(key, c2, now);
    var (c', fast) := RecoveryResend(key, c2, now);
    FreshIsOk(fast, c.rcv.nxt, v.ledger.episode, RecoverView(c.snd.pending, v));
  }

  lemma FullAckKeepsValid(c: Conn, v: View)
    requires SendValid(c.snd, v) && Bounded(c.cc, c.opt.sendMss) && c.cc.inRecovery
    ensures var c' := c.(cc := FullAck(c.cc.(duplicateAcks := 0)),
                         snd := c.snd.(pending := ClearRecovered(c.snd.pending)));
            ResponseOk(c, v, c', None, OverView(v))
  {
    hide SendValid, At, ClearRecovered;
    ClearRecoveredSame(c.snd.pending);
    EpisodeOver(c.snd, v, ClearRecovered(c.snd.pending));
  }

  lemma AdvanceKeepsValid(key: Key, c: Conn, v: View, r: AckResult, now: int)
    requires SendValid(c.snd, v) && Bounded(c.cc, c.opt.sendMss)
    requires c.cc.inRecovery ==>
               c.cc.recoveryPoint == At(v.ledger.isn, v.point) && v.point <= v.nxt && v.una <= v.point + REACH
    ensures var (c', fast) := OnAdvance(key, c, At(v.ledger.isn, v.una), r, now);
            ResponseOk(c, v, c', fast, AdvanceView(c, v, At(v.ledger.isn, v.una)))
  {
    hide SendValid, RecoveryResend, RecoverView, At, ResendOf, Bounded, Grow, PartialAck, FullAck, OverView, ResponseOk,
         ClearRecovered;
    var ack := At(v.ledger.isn, v.una);
    var c1 := c.(cc := c.cc.(duplicateAcks := 0));
    FlightBound(c.snd, v);
    SendOrder(c.snd, v);
    DuplicatesAreFree(c.cc, c.opt.sendMss, 0);
    if !c.cc.inRecovery {
      RespondKeepsBounds(c1.cc, c.opt.sendMss, Acked(r.dataBytes));
      GrowthKeepsValid(c, v, Grow(c1.cc, c.opt.sendMss, r.dataBytes)) by {
        GrowStays(c1.cc, c.opt.sendMss, r.dataBytes);
      }
    } else {
      ComparePositions(v.ledger.isn, v.point, v.una);
      if SeqLessOrEqual(c.cc.recoveryPoint, ack) {
        FullAckKeepsValid(c, v);
      } else {
        RespondKeepsBounds(c1.cc, c.opt.sendMss, Partial(r.space));
        PartialStays(c1.cc, c.opt.sendMss, r.space);
        ContinueKeepsValid(key, c, v, c1.(cc := PartialAck(c1.cc, c.opt.sendMss, r.space)), now);
      }
    }
  }

  lemma DuplicatesAreFree(cc: Congestion, smss: nat, n: nat)
    requires Bounded(cc, smss)
    ensures Bounded(cc.(duplicateAcks := n), smss)
  {
  }

  lemma GrowStays(cc: Congestion, smss: nat, n: nat)
    requires !cc.inRecovery
    ensures !Grow(cc, smss, n).inRecovery
  {
    hide Avoid;
  }

  lemma PartialStays(cc: Congestion, smss: nat, n: nat)
    ensures PartialAck(cc, smss, n) == cc.(cwnd := PartialAck(cc, smss, n).cwnd)
  {
  }

  /** Outside recovery only the congestion record changes. */
  lemma GrowthKeepsValid(c: Conn, v: View, cc: Congestion)
    requires SendValid(c.snd, v) && Bounded(cc, c.opt.sendMss) && !cc.inRecovery
    ensures ResponseOk(c, v, c.(cc := cc), None, v)
  {
    hide SendValid, Bounded;
  }

  lemma DuplicateKeepsValid(key: Key, c: Conn, v: View, seg: Segment, windowChanged: bool, now: int)
    requires SendValid(c.snd, v) && RecoveryValid(c, v)
    ensures var (c', fast) := OnDuplicate(key, c, seg, windowChanged, now);
            ResponseOk(c, v, c', fast, DuplicateView(c, v, seg, windowChanged))
  {
    hide SendValid, RecoveryResend, RecoverView, BeginFastRecovery, At, ResendOf, HasOutstandingData, Bounded, Inflate,
         ResponseOk, OverView, ClearRecovered, IsDuplicateAck;
    var c1 := c.(cc := c.cc.(duplicateAcks := c.cc.duplicateAcks + 1));
    DuplicatesAreFree(c.cc, c.opt.sendMss, 0);
    DuplicatesAreFree(c.cc, c.opt.sendMss, c.cc.duplicateAcks + 1);
    RecordKeepsValid(c, v, c.cc);
    RecordKeepsValid(c, v, c.cc.(duplicateAcks := 0));
    RecordKeepsValid(c, v, c1.cc);
    if IsDuplicateAck(c, seg, windowChanged) {
      DuplicateHasData(c, seg, windowChanged);
      if c.cc.inRecovery {
        RespondKeepsBounds(c1.cc, c.opt.sendMss, Duplicate);
        InflateStays(c1.cc, c.opt.sendMss);
        var c2 := c1.(cc := Inflate(c1.cc, c.opt.sendMss));
        RecordKeepsValid(c, v, c2.cc);
        ContinueKeepsValid(key, c, v, c2, now);
      } else if c1.cc.duplicateAcks == 3 {
        BeginKeepsValid(key, c1, v, now);
        BegunFromHere(c, c1, v, BeginFastRecovery(key, c1, now).0, BeginFastRecovery(key, c1, now).1,
                      RecoverView(ClearRecovered(c.snd.pending), OverView(v).(point := v.nxt)));
      }
    }
  }

  lemma DuplicateHasData(c: Conn, seg: Segment, windowChanged: bool)
    requires IsDuplicateAck(c, seg, windowChanged)
    ensures HasOutstandingData(c.snd.pending)
  {
  }

  lemma InflateStays(cc: Congestion, smss: nat)
    ensures Inflate(cc, smss) == cc.(cwnd := Inflate(cc, smss).cwnd)
  {
  }

  lemma BegunFromHere(c: Conn, c1: Conn, v: View, c': Conn, fast: Option<Segment>, v': View)
    requires c1 == c.(cc := c1.cc) && c1.cc.inRecovery == c.cc.inRecovery && ResponseOk(c1, v, c', fast, v')
    ensures ResponseOk(c, v, c', fast, v')
  {
    hide SendValid, RecoveryValid, FastOk, OnlyHistory;
  }

  /** Changes of the congestion record that leave the recovery alone. */
  lemma RecordKeepsValid(c: Conn, v: View, cc: Congestion)
    requires SendValid(c.snd, v) && RecoveryValid(c, v) && Bounded(cc, c.opt.sendMss)
    requires cc.inRecovery == c.cc.inRecovery && cc.recoveryPoint == c.cc.recoveryPoint
    ensures ResponseOk(c, v, c.(cc := cc), None, v)
  {
    hide SendValid, Bounded, At;
  }

  lemma BeginKeepsValid(key: Key, c: Conn, v: View, now: int)
    requires SendValid(c.snd, v) && Bounded(c.cc, c.opt.sendMss) && !c.cc.inRecovery
             && HasOutstandingData(c.snd.pending)
    ensures var (c', fast) := BeginFastRecovery(key, c, now);
            ResponseOk(c, v, c', fast, RecoverView(ClearRecovered(c.snd.pending), OverView(v).(point := v.nxt)))
  {
    hide SendValid, RecoveryResend, RecoverView, At, ResendOf, ClampCwnd, HalvedFlight, Tiles, ClearRecovered, FastOk,
         FreshResend, Bounded;
    var cleared := ClearRecovered(c.snd.pending);
    ClearRecoveredSame(c.snd.pending);
    EpisodeOver(c.snd, v, cleared);
    SendOrder(c.snd, v);
    TilesOrdered(c.snd.pending, v.una, v.nxt, v.ledger);
    RespondKeepsBounds(c.cc, c.opt.sendMss, EntersRecovery(Flight(c.snd), c.snd.nxt));
    var c1 := c.(cc := EnterRecovery(c.cc, c.opt.sendMss, Flight(c.snd), c.snd.nxt), snd := c.snd.(pending := cleared));
    var v1 := OverView(v).(point := v.nxt);
    PointIsFree(c1.snd, OverView(v), v.nxt);
    RecoveryKeepsValid(key, c1, v1, now);
    RecoveryFrame(key, c1, now);
    var (c', fast) := RecoveryResend(key, c1, now);
    FreshIsOk(fast, c.rcv.nxt, v1.ledger.episode, RecoverView(cleared, v1));
    FastAnyway(fast, c.rcv.nxt, v1.ledger.episode, v.ledger.episode, RecoverView(cleared, v1));
  }

  lemma ResendSameView(seg: Segment, ackno: u32, v: View, v': View, p: nat)
    requires ResendOf(seg, ackno, v, p)
    requires v'.una == v.una && v'.nxt == v.nxt && v'.ledger.stream == v.ledger.stream && v'.ledger.isn == v.ledger.isn
    ensures ResendOf(seg, ackno, v', p)
  {
  }

  /** The recovery point plays no part in the send side's own validity. */
  lemma PointIsFree(s: SendState, v: View, point: nat)
    requires SendValid(s, v)
    ensures SendValid(s, v.(point := point))
  {
  }

  // ---------------------------------------------------------------- the whole phase

  lemma RetireFrame(c: Conn, ack: u32, now: int)
    ensures var c' := RetireAcknowledged(c, ack, now).0;
            c' == c.(snd := c.snd.(una := c'.snd.una, pending := c'.snd.pending), rtt := c'.rtt)
  {
  }

  lemma AdvanceFrame(key: Key, c: Conn, ack: u32, r: AckResult, now: int)
    ensures var c' := OnAdvance(key, c, ack, r, now).0;
            c' == c.(cc := c'.cc, snd := c.snd.(pending := c'.snd.pending))
  {
    hide RecoveryResend, ClearRecovered, Grow, PartialAck, FullAck;
    var c1 := c.(cc := c.cc.(duplicateAcks := 0));
    RecoveryFrame(key, c1.(cc := PartialAck(c1.cc, c1.opt.sendMss, r.space)), now);
  }

  lemma DuplicateFrame(key: Key, c: Conn, seg: Segment, windowChanged: bool, now: int)
    ensures var c' := OnDuplicate(key, c, seg, windowChanged, now).0;
            c' == c.(cc := c'.cc, snd := c.snd.(pending := c'.snd.pending))
  {
    hide RecoveryResend, ClearRecovered, Inflate, EnterRecovery, HasOutstandingData, Flight;
    var c1 := c.(cc := c.cc.(duplicateAcks := c.cc.duplicateAcks + 1));
    RecoveryFrame(key, c1.(cc := Inflate(c1.cc, c1.opt.sendMss)), now);
    RecoveryFrame(key, c1.(cc := EnterRecovery(c1.cc, c1.opt.sendMss, Flight(c1.snd), c1.snd.nxt),
                           snd := c1.snd.(pending := ClearRecovered(c1.snd.pending))), now);
  }

  function ProcessAckView(c: Conn, v: View, seg: Segment, blocks: seq<SackBlock>, now: int): View {
    var (c1, r) := RetireAcknowledged(c, seg.ackno, now);
    var v1 := AckView(c, v, seg.ackno, now);
    var c2 := ApplySack(c1, seg.ackno, blocks);
    var c3 := c2.(snd := UpdateSendWindow(c2.snd, c2.opt, seg));
    if r.advanced then AdvanceView(c3, v1, seg.ackno)
    else DuplicateView(c3, v1, seg, c3.snd.wnd != c2.snd.wnd)
  }

  /** Scoreboard marks and the peer's window leave the send side valid. */
  lemma SackAndWindow(c: Conn, v: View, seg: Segment, blocks: seq<SackBlock>)
    requires SendValid(c.snd, v)
    ensures var c2 := ApplySack(c, seg.ackno, blocks);
            var c3 := c2.(snd := UpdateSendWindow(c2.snd, c2.opt, seg));
            && SendValid(c3.snd, v)
            && c3 == c.(snd := c.snd.(pending := c3.snd.pending, wnd := c3.snd.wnd, wl1 := c3.snd.wl1,
                                      wl2 := c3.snd.wl2))
  {
    hide Tiles, MarkSacked, At, SignedSub, DecodePeerWindow, HistoryBelow;
    TilesMarked(c.snd.pending, v.una, v.nxt, v.ledger, seg.ackno, c.snd.nxt, blocks);
  }

  /** The part of a view an acknowledgment may change. */
  predicate OnlyAck(v: View, v': View) {
    v' == v.(una := v'.una, point := v'.point,
             ledger := v.ledger.(sampledEnd := v'.ledger.sampledEnd, resent := v'.ledger.resent,
                                 episode := v'.ledger.episode))
  }

  /** The congestion response, before the FIN is looked at. */
  function Responded(key: Key, c: Conn, seg: Segment, blocks: seq<SackBlock>, now: int): (Conn, Option<Segment>) {
    var (c1, r) := RetireAcknowledged(c, seg.ackno, now);
    var c2 := ApplySack(c1, seg.ackno, blocks);
    var c3 := c2.(snd := UpdateSendWindow(c2.snd, c2.opt, seg));
    if r.advanced then OnAdvance(key, c3, seg.ackno, r, now)
    else OnDuplicate(key, c3, seg, c3.snd.wnd != c2.snd.wnd, now)
  }

  lemma AckViewFrame(c: Conn, v: View, ack: u32, now: int)
    ensures var v' := AckView(c, v, ack, now);
            v' == v.(una := v'.una, ledger := v.ledger.(sampledEnd := v'.ledger.sampledEnd))
  {
  }

  lemma PointAhead(c: Conn, v: View, una: nat)
    requires RecoveryValid(c, v) && v.una <= una <= v.nxt <= v.una + REACH
    ensures Bounded(c.cc, c.opt.sendMss)
    ensures c.cc.inRecovery ==>
              c.cc.recoveryPoint == At(v.ledger.isn, v.point) && v.point <= v.nxt && una <= v.point + REACH
  {
    hide Bounded, At;
  }

  /** The response, measured from the view after retirement. */
  lemma RespondedIsOk(key: Key, c: Conn, v: View, seg: Segment, blocks: seq<SackBlock>, now: int)
    requires SendValid(c.snd, v) && RecoveryValid(c, v) && RttEstimator.Valid(c.rtt)
             && SeqLessOrEqual(seg.ackno, c.snd.nxt)
    ensures var (c', fast) := Responded(key, c, seg, blocks, now);
            ResponseOk(c, AckView(c, v, seg.ackno, now), c', fast, ProcessAckView(c, v, seg, blocks, now))
  {
    hide SendValid, RetireAcknowledged, ApplySack, UpdateSendWindow, OnAdvance, OnDuplicate, AdvanceView, DuplicateView,
         ResponseOk, At, RttEstimator.Valid, RecoveryValid, AckView, SeqLessOrEqual;
    FlightBound(c.snd, v);
    RetireKeepsValid(c, v, seg.ackno, now);
    RetireMeaning(c, v, seg.ackno, now);
    RetireFrame(c, seg.ackno, now);
    AckViewFrame(c, v, seg.ackno, now);
    var (c1, r) := RetireAcknowledged(c, seg.ackno, now);
    var v1 := AckView(c, v, seg.ackno, now);
    SackAndWindow(c1, v1, seg, blocks);
    var c2 := ApplySack(c1, seg.ackno, blocks);
    var c3 := c2.(snd := UpdateSendWindow(c2.snd, c2.opt, seg));
    if r.advanced {
      PointAhead(c, v, v1.una);
      AdvanceKeepsValid(key, c3, v1, r, now);
      SameOrigin(c3, c, v1, OnAdvance(key, c3, seg.ackno, r, now).0, OnAdvance(key, c3, seg.ackno, r, now).1,
                 AdvanceView(c3, v1, seg.ackno));
    } else {
      StillRecovering(c, c3, v, v1);
      var changed := c3.snd.wnd != c2.snd.wnd;
      DuplicateKeepsValid(key, c3, v1, seg, changed, now);
      SameOrigin(c3, c, v1, OnDuplicate(key, c3, seg, changed, now).0, OnDuplicate(key, c3, seg, changed, now).1,
                 DuplicateView(c3, v1, seg, changed));
    }
  }

  lemma SameOrigin(c: Conn, d: Conn, v: View, c': Conn, fast: Option<Segment>, v': View)
    requires ResponseOk(c, v, c', fast, v') && d.rcv == c.rcv && d.cc == c.cc
    ensures ResponseOk(d, v, c', fast, v')
  {
    hide SendValid, RecoveryValid, FastOk, OnlyHistory;
  }

  lemma StillRecovering(c: Conn, c': Conn, v: View, v': View)
    requires RecoveryValid(c, v) && c'.cc == c.cc && c'.opt == c.opt
    requires v'.una == v.una && v'.nxt == v.nxt && v'.point == v.point && v'.ledger.isn == v.ledger.isn
    ensures RecoveryValid(c', v')
  {
    hide Bounded, At;
  }

  lemma RespondedKeepsValid(key: Key, c: Conn, v: View, seg: Segment, blocks: seq<SackBlock>, now: int)
    requires SendValid(c.snd, v) && RecoveryValid(c, v) && RttEstimator.Valid(c.rtt)
             && SeqLessOrEqual(seg.ackno, c.snd.nxt)
    ensures var (c', fast) := Responded(key, c, seg, blocks, now);
            var v' := ProcessAckView(c, v, seg, blocks, now);
            && SendValid(c'.snd, v') && RecoveryValid(c', v') && RttEstimator.Valid(c'.rtt)
            && OnlyAck(v, v') && v.una <= v'.una <= v'.nxt
            && FastOk(fast, c.rcv.nxt, c.cc.inRecovery, v.ledger.episode, v')
            && EpisodeKept(c.cc, v, c'.cc, fast, v')
  {
    hide SendValid, RecoveryValid, RetireAcknowledged, Responded, ProcessAckView, AckView, FastOk, RttEstimator.Valid,
         SeqLessOrEqual;
    RespondedIsOk(key, c, v, seg, blocks, now);
    RespondedRtt(key, c, seg, blocks, now);
    RetireKeepsValid(c, v, seg.ackno, now);
    RetireMeaning(c, v, seg.ackno, now);
    AckViewFrame(c, v, seg.ackno, now);
  }

  lemma RespondedRtt(key: Key, c: Conn, seg: Segment, blocks: seq<SackBlock>, now: int)
    ensures Responded(key, c, seg, blocks, now).0.rtt == RetireAcknowledged(c, seg.ackno, now).0.rtt
  {
    hide OnAdvance, OnDuplicate, RetireAcknowledged, UpdateSendWindow, MarkSacked;
    var (c1, r) := RetireAcknowledged(c, seg.ackno, now);
    var c2 := ApplySack(c1, seg.ackno, blocks);
    var c3 := c2.(snd := UpdateSendWindow(c2.snd, c2.opt, seg));
    AdvanceFrame(key, c3, seg.ackno, r, now);
    DuplicateFrame(key, c3, seg, c3.snd.wnd != c2.snd.wnd, now);
  }

  // ---------------------------------------------------------------- the local FIN

  /** The state inside a step: determined by the history, or the connection is on its way out. */
  predicate StepState(c: Conn, v: View) {
    && (c.removal <==> v.FinAcked() && v.peerFin && v.passive)
    && c.state == (if c.removal then LastAck else StateOf(v))
    && c.Synchronized() && (c.state == TimeWait <==> c.timeWait.Some?)
  }

  lemma FinAckedIsExact(s: SendState, v: View)
    requires SendValid(s, v)
    ensures LocalFinAcked(s) <==> v.FinAcked()
    ensures v.FinAcked() ==> s.pending == []
  {
    FlightBound(s, v);
    if v.finSent {
      AtAt(v.ledger.isn, 1 + |v.ledger.stream|, 1);
      ComparePositions(v.ledger.isn, 2 + |v.ledger.stream|, v.una);
      TilesOrdered(s.pending, v.una, v.nxt, v.ledger);
    }
  }

  /** The connection enters TIME-WAIT with an already empty queue, so clearing it changes nothing. */
  lemma TimeWaitFindsEmptyQueue(c: Conn, v: View, now: int)
    requires SendValid(c.snd, v) && v.FinAcked()
    ensures c.snd.pending == []
    ensures StartTimeWait(c, now) == c.(state := TimeWait, timeWait := Some(now + TIME_WAIT_DURATION))
  {
    FinAckedIsExact(c.snd, v);
  }

  /** The acknowledgment of the local FIN takes exactly the edges of section 3.3.2 of RFC 9293. */
  lemma OnFinAckedKeepsState(c: Conn, v0: View, v: View, now: int)
    requires SendValid(c.snd, v) && OnlyAck(v0, v) && v0.una <= v.una
    requires c.state == StateOf(v0) != TimeWait && c.timeWait.None? && !c.removal
    requires !(v0.FinAcked() && v0.peerFin && v0.passive)
    ensures var c' := OnFinAcked(c, now);
            && StepState(c', v)
            && c' == c.(state := c'.state, timeWait := c'.timeWait, removal := c'.removal)
            && (c'.state == c.state || (c.state == FinWait1 && c'.state == FinWait2)
                || (c.state == Closing && c'.state == TimeWait))
  {
    hide SendValid, LocalFinAcked;
    FinAckedIsExact(c.snd, v);
    SendOrder(c.snd, v);
    FinBound(c.snd, v);
    if v.FinAcked() {
      TimeWaitFindsEmptyQueue(c, v, now);
    }
  }

  lemma FinBound(s: SendState, v: View)
    requires SendValid(s, v)
    ensures v.finSent ==> v.una <= 2 + |v.ledger.stream|
    ensures !v.finSent ==> v.una <= 1 + |v.ledger.stream|
  {
  }

  /** Acknowledgment processing as a whole. */
  lemma ProcessAckKeepsValid(key: Key, c: Conn, v: View, seg: Segment, blocks: seq<SackBlock>, now: int)
    requires SyncValid(c, v) && c.state != TimeWait && SeqLessOrEqual(seg.ackno, c.snd.nxt)
    ensures var (c', fast) := ProcessAck(key, c, seg, blocks, now);
            var v' := ProcessAckView(c, v, seg, blocks, now);
            && CoreValid(c', v') && StepState(c', v')
            && c'.rcv == c.rcv && c'.opt == c.opt && c'.persist == c.persist
            && OnlyAck(v, v') && v.una <= v'.una && FastOk(fast, c.rcv.nxt, c.cc.inRecovery, v.ledger.episode, v')
            && EpisodeKept(c.cc, v, c'.cc, fast, v')
  {
    hide SendValid, StateOf, FastOk, RttEstimator.Valid, BufferValid, OptValid, At, Bounded, ProcessAckView,
         RetireAcknowledged, OnAdvance, OnDuplicate, ApplySack, UpdateSendWindow, PersistEligible, OnFinAcked;
    RespondedKeepsValid(key, c, v, seg, blocks, now);
    RespondedFrame(key, c, seg, blocks, now);
    var c1 := Responded(key, c, seg, blocks, now).0;
    OnFinAckedKeepsState(c1, v, ProcessAckView(c, v, seg, blocks, now), now);
    assert ProcessAck(key, c, seg, blocks, now) == (OnFinAcked(c1, now), Responded(key, c, seg, blocks, now).1);
  }

  lemma RespondedFrame(key: Key, c: Conn, seg: Segment, blocks: seq<SackBlock>, now: int)
    ensures var c' := Responded(key, c, seg, blocks, now).0;
            c' == c.(snd := c'.snd, cc := c'.cc, rtt := c'.rtt)
  {
    hide OnAdvance, OnDuplicate, RetireAcknowledged, UpdateSendWindow;
    RetireFrame(c, seg.ackno, now);
    var (c1, r) := RetireAcknowledged(c, seg.ackno, now);
    var c2 := ApplySack(c1, seg.ackno, blocks);
    var c3 := c2.(snd := UpdateSendWindow(c2.snd, c2.opt, seg));
    AdvanceFrame(key, c3, seg.ackno, r, now);
    DuplicateFrame(key, c3, seg, c3.snd.wnd != c2.snd.wnd, now);
  }

  /** What was sampled and what was resent stays on record. */
  predicate Remembers(l: Ledger, l': Ledger) { l.sampledEnd <= l'.sampledEnd && l.resent <= l'.resent }

  lemma ResponseRemembers(c: Conn, v: View, seg: Segment, windowChanged: bool)
    ensures Remembers(v.ledger, AdvanceView(c, v, seg.ackno).ledger)
    ensures Remembers(v.ledger, DuplicateView(c, v, seg, windowChanged).ledger)
  {
    hide LowestResendable, PositionOf, ClearRecovered, IsDuplicateAck, SeqLessOrEqual, Pending.Length;
  }

  lemma ProcessAckRemembers(c: Conn, v: View, seg: Segment, blocks: seq<SackBlock>, now: int)
    requires SendValid(c.snd, v) && SeqLessOrEqual(seg.ackno, c.snd.nxt)
    ensures Remembers(v.ledger, ProcessAckView(c, v, seg, blocks, now).ledger)
  {
    hide *;
    var v1 := AckView(c, v, seg.ackno, now);
    var c2 := ApplySack(RetireAcknowledged(c, seg.ackno, now).0, seg.ackno, blocks);
    var c3 := c2.(snd := UpdateSendWindow(c2.snd, c2.opt, seg));
    AckRemembers(c, v, seg.ackno, now);
    ResponseRemembers(c3, v1, seg, c3.snd.wnd != c2.snd.wnd);
    ViewOfResponse(c, v, seg, blocks, now);
    RemembersAll(v.ledger, v1.ledger, ProcessAckView(c, v, seg, blocks, now).ledger);
  }

  lemma AckRemembers(c: Conn, v: View, ack: u32, now: int)
    requires SendValid(c.snd, v) && SeqLessOrEqual(ack, c.snd.nxt)
    ensures Remembers(v.ledger, AckView(c, v, ack, now).ledger)
  {
    hide SendValid, Retire, SampleEnd, SeqGreater, SeqLessOrEqual, RetireAcknowledged;
    RetireMeaning(c, v, ack, now);
  }

  lemma ViewOfResponse(c: Conn, v: View, seg: Segment, blocks: seq<SackBlock>, now: int)
    ensures var v1 := AckView(c, v, seg.ackno, now);
            var c2 := ApplySack(RetireAcknowledged(c, seg.ackno, now).0, seg.ackno, blocks);
            var c3 := c2.(snd := UpdateSendWindow(c2.snd, c2.opt, seg));
            var v' := ProcessAckView(c, v, seg, blocks, now);
            v' == AdvanceView(c3, v1, seg.ackno) || v' == DuplicateView(c3, v1, seg, c3.snd.wnd != c2.snd.wnd)
  {
    hide AckView, ApplySack, RetireAcknowledged, UpdateSendWindow, AdvanceView, DuplicateView;
  }

  lemma RemembersAll(a: Ledger, b: Ledger, c: Ledger)
    requires Remembers(a, b) && Remembers(b, c)
    ensures Remembers(a, c)
  {
  }
}
