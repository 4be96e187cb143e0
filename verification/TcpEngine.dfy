/** Every step of one connection: arriving segments, application calls and timer polls. */
module TcpEngine {
  import opened Primitives
  import opened SequenceSpace
  import opened TcpOptions
  import opened TcpSegments
  import opened TcpTypes
  import opened Receiving
  import opened RttEstimator
  import opened CongestionControl
  import opened Sending

  // ---------------------------------------------------------------- acknowledgment processing

  predicate HasOutstandingData(pending: seq<Pending>) { exists e | e in pending :: e.IsData() }

  predicate IsDuplicateAck(c: Conn, seg: Segment, windowChanged: bool) {
    && seg.ackno == c.snd.una && seg.payload == [] && !seg.flags.syn && !seg.flags.fin
    && !windowChanged && HasOutstandingData(c.snd.pending)
  }

  /** The congestion response to an ACK that advanced `snd_una`. */
  function OnAdvance(key: Key, c0: Conn, ack: u32, r: AckResult, now: int): (Conn, Option<Segment>) {
    var c := c0.(cc := c0.cc.(duplicateAcks := 0));
    if !c.cc.inRecovery then (c.(cc := Grow(c.cc, c.opt.sendMss, r.dataBytes)), None)
    else if SeqLessOrEqual(c.cc.recoveryPoint, ack) then
      (c.(cc := FullAck(c.cc), snd := c.snd.(pending := ClearRecovered(c.snd.pending))), None)
    else RecoveryResend(key, c.(cc := PartialAck(c.cc, c.opt.sendMss, r.space)), now)
  }

  /** The congestion response to an ACK that did not. */
  function OnDuplicate(key: Key, c: Conn, seg: Segment, windowChanged: bool, now: int): (Conn, Option<Segment>) {
    if !IsDuplicateAck(c, seg, windowChanged) then
      (if windowChanged then c.(cc := c.cc.(duplicateAcks := 0)) else c, None)
    else
      var c1 := c.(cc := c.cc.(duplicateAcks := c.cc.duplicateAcks + 1));
      if c1.cc.inRecovery then
        var c2 := c1.(cc := Inflate(c1.cc, c1.opt.sendMss));
        if c2.opt.sack then RecoveryResend(key, c2, now) else (c2, None)
      else if c1.cc.duplicateAcks == 3 then BeginFastRecovery(key, c1, now)
      else (c1, None)
  }

  function StartTimeWait(c: Conn, now: int): Conn {
    c.(state := TimeWait, timeWait := Some(now + TIME_WAIT_DURATION), snd := c.snd.(pending := []))
  }

  predicate LocalFinAcked(s: SendState) {
    s.finSeq.Some? && SeqLessOrEqual(At(s.finSeq.value, 1), s.una)
  }

  /** The state change when the local FIN has been acknowledged. */
  function OnFinAcked(c: Conn, now: int): Conn {
    if !LocalFinAcked(c.snd) then c
    else if c.state == FinWait1 then c.(state := FinWait2)
    else if c.state == Closing then StartTimeWait(c, now)
    else if c.state == LastAck then c.(removal := true)
    else c
  }

  function ApplySack(c: Conn, ack: u32, blocks: seq<SackBlock>): Conn {
    if c.opt.sack then c.(snd := c.snd.(pending := MarkSacked(c.snd.pending, ack, c.snd.nxt, blocks))) else c
  }

  function ProcessAck(key: Key, c: Conn, seg: Segment, blocks: seq<SackBlock>, now: int): (Conn, Option<Segment>) {
    var (c1, r) := RetireAcknowledged(c, seg.ackno, now);
    var c2 := ApplySack(c1, seg.ackno, blocks);
    var c3 := c2.(snd := UpdateSendWindow(c2.snd, c2.opt, seg));
    var (c4, fast) := if r.advanced then OnAdvance(key, c3, seg.ackno, r, now)
                      else OnDuplicate(key, c3, seg, c3.snd.wnd != c2.snd.wnd, now);
    (OnFinAcked(c4, now), fast)
  }

  // ---------------------------------------------------------------- payload and FIN

  predicate FinOpen(state: TcpState) { state == Established || state == FinWait1 || state == FinWait2 }

  datatype Reception = Reception(conn: Conn, accepted: seq<u8>, peerClosed: bool, mostRecent: Option<u32>)

  function ConsumeFin(c: Conn, now: int): Conn {
    var c1 := c.(rcv := c.rcv.(nxt := At(c.rcv.nxt, 1), pendingFin := None));
    if c.state == Established then c1.(state := CloseWait)
    else if c.state == FinWait1 then c1.(state := Closing)
    else if c.state == FinWait2 then StartTimeWait(c1, now)
    else c1
  }

  predicate AnyPayloadInWindow(c: Conn, seg: Segment) {
    WindowTest(c.rcv.nxt, LogicalWindow(c.rcv, c.opt), seg.seqno, |seg.payload|).any
  }

  predicate FinAccepted(c: Conn, seg: Segment) {
    && FinOpen(c.state) && seg.flags.fin
    && FinInWindow(c.rcv.nxt, LogicalWindow(c.rcv, c.opt), At(seg.seqno, |seg.payload|))
  }

  /** Insertion of the usable payload, and the retained FIN. */
  function Absorb(c: Conn, seg: Segment): RecvState {
    var u := WindowTest(c.rcv.nxt, LogicalWindow(c.rcv, c.opt), seg.seqno, |seg.payload|);
    var r := if u.any then Accept(c.rcv, u, seg.seqno, seg.payload) else c.rcv;
    if FinAccepted(c, seg) then r.(pendingFin := Some(At(seg.seqno, |seg.payload|))) else r
  }

  function Receive(c: Conn, seg: Segment, now: int): Reception {
    var u := WindowTest(c.rcv.nxt, LogicalWindow(c.rcv, c.opt), seg.seqno, |seg.payload|);
    var r := Absorb(c, seg);
    var recent := if u.any then MostRecent(r.fragments, u.start) else None;
    var (bytes, nxt, rest) := Release(r.nxt, r.fragments);
    var c1 := c.(rcv := r.(nxt := nxt, fragments := rest));
    if c1.rcv.pendingFin == Some(nxt) then Reception(ConsumeFin(c1, now), bytes, true, recent)
    else Reception(c1, bytes, false, recent)
  }

  // ---------------------------------------------------------------- arriving segments

  function ScheduleIfSendable(key: Key, c: Conn, now: int): (Conn, seq<Segment>) {
    if !c.removal && c.Sendable() then Schedule(key, c, now) else (UpdatePersist(c, now), [])
  }

  predicate HasSackToReport(c: Conn) { c.opt.sack && c.rcv.fragments != [] }

  /** After acknowledgment processing: payload and FIN, then scheduling, then the reply. */
  function AfterAck(key: Key, c: Conn, seg: Segment, fast: Option<Segment>, now: int): (Conn, ReceiveResult) {
    if seg.payload == [] && !seg.flags.fin then
      var (c1, scheduled) := ScheduleIfSendable(key, c, now);
      (c1, NOTHING.(closed := c.removal, fastRetransmit := fast, scheduled := scheduled,
                    reply := if HasSackToReport(c1) then Some(MakePureAck(key, c1, None)) else None))
    else if !AnyPayloadInWindow(c, seg) && !FinAccepted(c, seg) then
      var (c1, scheduled) := ScheduleIfSendable(key, c, now);
      (c1, NOTHING.(fastRetransmit := fast, scheduled := scheduled,
                    reply := if scheduled == [] || HasSackToReport(c1) then Some(MakePureAck(key, c1, None)) else None))
    else
      var got := Receive(c, seg, now);
      var (c1, scheduled) := ScheduleIfSendable(key, got.conn, now);
      (c1, NOTHING.(fastRetransmit := fast, scheduled := scheduled, accepted := got.accepted,
                    peerClosed := got.peerClosed,
                    reply := if (got.accepted == [] && scheduled == []) || HasSackToReport(c1)
                             then Some(MakePureAck(key, c1, got.mostRecent)) else None))
  }

  predicate IsDuplicateSynAck(c: Conn, seg: Segment) {
    && seg.flags.ack && !seg.flags.rst && !seg.flags.fin && seg.payload == [] && c.remoteKnown
    && seg.seqno == c.remoteIsn && seg.ackno == At(c.localIsn, 1)
  }

  /** The segment reaches acknowledgment processing. */
  predicate AckAcceptable(c: Conn, seg: Segment) {
    !seg.flags.syn && ParseOptions(seg.options).Ok? && !seg.flags.rst && seg.flags.ack
    && SeqLessOrEqual(seg.ackno, c.snd.nxt)
  }

  function HandleSynchronized(key: Key, c: Conn, seg: Segment, now: int): (Conn, ReceiveResult) {
    if AckAcceptable(c, seg) then
      var (c1, fast) := ProcessAck(key, c, seg, ParseOptions(seg.options).value.sackBlocks, now);
      AfterAck(key, c1, seg, fast, now)
    else if seg.flags.syn then
      (c, if IsDuplicateSynAck(c, seg) then Replying(MakePureAck(key, c, None)) else NOTHING)
    else if ParseOptions(seg.options).Ok? && seg.flags.rst && seg.seqno == c.rcv.nxt then
      (c.(removal := true), NOTHING.(reset := true))
    else (c, NOTHING)
  }

  function Negotiate(o: ParsedOptions): Negotiated {
    var peerMss := if o.mss.Some? then o.mss.value else DEFAULT_PEER_MSS;
    Negotiated(peerMss, Min(TCP_MSS, peerMss),
               if o.windowScale.Some? then Min(o.windowScale.value, MAX_WINDOW_SCALE) else 0,
               if o.windowScale.Some? then LOCAL_WINDOW_SCALE else 0,
               o.windowScale.Some?, o.sackPermitted)
  }

  /** A SYN-ACK that completes the active open. */
  predicate CompletesConnect(c: Conn, seg: Segment) {
    && ParseOptions(seg.options).Ok? && !seg.flags.rst && seg.flags.syn && seg.flags.ack
    && !seg.flags.fin && seg.payload == [] && seg.ackno == c.snd.nxt
  }

  function HandleSynSent(key: Key, c: Conn, seg: Segment, now: int): (Conn, ReceiveResult) {
    if ParseOptions(seg.options).Ok? && seg.flags.rst && seg.flags.ack && seg.ackno == c.snd.nxt then
      (c.(removal := true), NOTHING.(reset := true))
    else if CompletesConnect(c, seg) then
      var opt := Negotiate(ParseOptions(seg.options).value);
      var c1 := c.(remoteIsn := seg.seqno, remoteKnown := true, rcv := c.rcv.(nxt := At(seg.seqno, 1)),
                   opt := opt, cc := c.cc.(cwnd := InitialCwnd(opt.sendMss)), state := Established);
      var c2 := RetireAcknowledged(c1, seg.ackno, now).0;
      var c3 := c2.(snd := c2.snd.(wnd := seg.window, wl1 := seg.seqno, wl2 := seg.ackno));
      (c3, Replying(MakeSegment(key, c3, c3.snd.nxt, ACK, [], [])).(established := true))
    else (c, NOTHING)
  }

  function HandleTimeWait(key: Key, c: Conn, seg: Segment, now: int): (Conn, ReceiveResult) {
    if seg.flags.rst then
      (if seg.seqno == c.rcv.nxt then c.(removal := true) else c, NOTHING)
    else if !seg.flags.syn && seg.payload == [] && seg.flags.fin && At(seg.seqno, 1) == c.rcv.nxt then
      var c1 := c.(timeWait := Some(now + TIME_WAIT_DURATION));
      (c1, Replying(MakePureAck(key, c1, None)))
    else (c, NOTHING)
  }

  predicate CompletesAccept(c: Conn, seg: Segment) {
    seg.ackno == At(c.localIsn, 1) && seg.seqno == At(c.remoteIsn, 1)
  }

  function HandleSynReceived(key: Key, c: Conn, seg: Segment, now: int): (Conn, ReceiveResult) {
    if seg.flags.rst then
      (if seg.seqno == At(c.remoteIsn, 1) then c.(removal := true) else c, NOTHING)
    else if seg.flags.syn && !seg.flags.ack then
      if seg.seqno == c.remoteIsn then
        var pending := if c.snd.pending == [] then [] else c.snd.pending[0 := c.snd.pending[0].(lastSentAt := now)];
        (c.(snd := c.snd.(pending := pending)), Replying(MakeSynAck(key, c)))
      else (c, NOTHING)
    else if seg.flags.ack && !seg.flags.syn && CompletesAccept(c, seg) then
      var c1 := c.(state := Established, rcv := c.rcv.(nxt := At(c.remoteIsn, 1)),
                   snd := c.snd.(una := c.localIsn, nxt := At(c.localIsn, 1)));
      var c2 := RetireAcknowledged(c1, At(c.localIsn, 1), now).0;
      (c2.(snd := c2.snd.(wnd := DecodePeerWindow(c2.opt, seg.window), wl1 := seg.seqno, wl2 := seg.ackno)), NOTHING)
    else (c, NOTHING)
  }

  /** One arriving segment for an existing connection; `removal` in the result means it is erased. */
  function Handle(key: Key, c: Conn, seg: Segment, now: int): (Conn, ReceiveResult) {
    match c.state
    case TimeWait => HandleTimeWait(key, c, seg, now)
    case SynSent => HandleSynSent(key, c, seg, now)
    case SynReceived => HandleSynReceived(key, c, seg, now)
    case _ => HandleSynchronized(key, c, seg, now)
  }

  // ---------------------------------------------------------------- opening

  /** The connection `beginConnect` creates, and its SYN. */
  function Connect(key: Key, isn: u32, now: int): (Conn, Segment) {
    var c := NewConn(SynSent, isn).(remoteKnown := false);
    var c1 := c.(snd := c.snd.(una := isn, nxt := At(isn, 1)));
    var syn := MakeActiveSyn(key, c1);
    var entry := NewPending(isn, syn.flags, [], now, c1.rtt.rto).(isSyn := true, isActiveSyn := true);
    (c1.(snd := c1.snd.(pending := [entry])), syn)
  }

  /** The connection a bare SYN creates, and its SYN-ACK. */
  function Listen(key: Key, isn: u32, seg: Segment, options: ParsedOptions, now: int): (Conn, Segment) {
    var c := NewConn(SynReceived, isn);
    var opt := Negotiate(options);
    var c1 := c.(remoteIsn := seg.seqno, opt := opt, cc := c.cc.(cwnd := InitialCwnd(opt.sendMss)));
    var synAck := MakeSynAck(key, c1);
    var entry := NewPending(isn, synAck.flags, [], now, c1.rtt.rto).(isSyn := true);
    (c1.(snd := c1.snd.(pending := [entry])), synAck)
  }

  /** The reset for a segment that matches no connection. */
  function ClosedPortReset(seg: Segment): Segment {
    var consumed := |seg.payload| + (if seg.flags.syn then 1 else 0) + (if seg.flags.fin then 1 else 0);
    if seg.flags.ack
    then Segment(seg.destinationPort, seg.sourcePort, seg.ackno, 0, NO_FLAGS.(rst := true), 0, 0, [], [])
    else Segment(seg.destinationPort, seg.sourcePort, 0, At(seg.seqno, consumed),
                 NO_FLAGS.(rst := true, ack := true), 0, 0, [], [])
  }

  // ---------------------------------------------------------------- application calls

  datatype SendError = NotSendable | EmptyPayload | TooLarge | BufferFull

  function SendCheck(c: Conn, payload: seq<u8>): Option<SendError> {
    if payload == [] then Some(EmptyPayload)
    else if |payload| > MAX_APPLICATION_SEND then Some(TooLarge)
    else if !c.Sendable() || c.snd.closeRequested then Some(NotSendable)
    else if OwnedBytes(c.snd) + |payload| > SEND_BUFFER_CAPACITY then Some(BufferFull)
    else None
  }

  function MakeOutgoingData(key: Key, c: Conn, payload: seq<u8>, now: int): (Conn, Result<seq<Segment>, SendError>) {
    var error := SendCheck(c, payload);
    if error.Some? then (c, Err(error.value))
    else
      var (c1, segments) := Schedule(key, c.(snd := c.snd.(unsent := c.snd.unsent + payload)), now);
      (c1, Ok(segments))
  }

  /** `accepted` is false only when the connection cannot be closed from its state. */
  datatype CloseResult = CloseResult(accepted: bool, fin: Option<Segment>)

  function BeginClose(key: Key, c: Conn, now: int): (Conn, CloseResult) {
    if !c.Sendable() then (c, CloseResult(false, None))
    else
      var (c1, fin) := MaybeSequenceFin(key, c.(snd := c.snd.(closeRequested := true)), now);
      (UpdatePersist(c1, now), CloseResult(true, if fin == [] then None else Some(fin[0])))
  }

  // ---------------------------------------------------------------- timers

  /** The next time `PollRetransmission` has something to do. */
  function RetransmissionDeadline(c: Conn): Option<int> {
    if c.state == TimeWait then c.timeWait
    else if c.snd.pending == [] then None
    else Some(c.snd.pending[0].Deadline())
  }

  datatype PollOutcome = Idle | Resent(segment: Segment) | TimedOut | TimeWaitExpired

  function TimeoutSegment(key: Key, c: Conn, e: Pending): Segment {
    Segment(key.localPort, key.remotePort, e.start,
            if e.isActiveSyn then 0 else if e.isSyn then At(c.remoteIsn, 1) else c.rcv.nxt,
            e.flags, AdvertisedWindow(c.rcv, c.opt, !e.isSyn && c.opt.scaling), 0,
            if e.isActiveSyn then BuildActiveSynOptions()
            else if e.isSyn then BuildSynAckOptions(c.opt.sack, c.opt.scaling, c.opt.localScale)
            else [],
            e.payload)
  }

  function CollapseOnTimeout(c: Conn): Conn {
    c.(cc := Collapse(c.cc, c.opt.sendMss, Flight(c.snd)),
       snd := c.snd.(pending := ClearScoreboard(c.snd.pending)))
  }

  /** The oldest entry as it is after one more expiry. */
  function Expired(e: Pending, now: int): Pending {
    e.(timeouts := e.timeouts + 1, resent := true, lastSentAt := now, interval := BackOff(e.interval))
  }

  function ResendOldest(key: Key, c: Conn, now: int): (Conn, Segment)
    requires c.snd.pending != []
  {
    var c1 := if c.snd.pending[0].IsData() then CollapseOnTimeout(c) else c;
    var e := Expired(c1.snd.pending[0], now);
    (c1.(snd := c1.snd.(pending := c1.snd.pending[0 := e]),
         rtt := c1.rtt.(rto := Max(c1.rtt.rto, e.interval))),
     TimeoutSegment(key, c1, c1.snd.pending[0]))
  }

  function PollRetransmission(key: Key, c: Conn, now: int): (Conn, PollOutcome) {
    var deadline := RetransmissionDeadline(c);
    if deadline.None? || now < deadline.value then (c, Idle)
    else if c.state == TimeWait then (c.(removal := true), TimeWaitExpired)
    else if c.snd.pending[0].timeouts >= MAX_RETRANSMITS then (c.(removal := true), TimedOut)
    else
      var (c1, segment) := ResendOldest(key, c, now);
      (c1, Resent(segment))
  }

  function PollPersist(key: Key, c: Conn, now: int): (Conn, Option<Segment>) {
    if c.persist.deadline.None? || now < c.persist.deadline.value then (c, None)
    else if !PersistEligible(c) then (c.(persist := c.persist.(deadline := None)), None)
    else
      var interval := Min(c.persist.interval * 2, MAX_PERSIST_INTERVAL);
      (c.(persist := PersistState(Some(now + interval), interval)),
       Some(MakeSegment(key, c, Sub(c.snd.nxt, 1), ACK, [], c.snd.unsent[..1])))
  }
}
