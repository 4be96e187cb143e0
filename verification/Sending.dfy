/**
 The send side: segment builders, retirement of acknowledged entries, scheduling of queued
 bytes, the deferred FIN and the persist timer.
 */
module Sending {
  import opened Primitives
  import opened SequenceSpace
  import opened TcpOptions
  import opened TcpSegments
  import opened TcpTypes
  import opened Receiving
  import opened RttEstimator
  import opened CongestionControl

  // ---------------------------------------------------------------- segments

  const ACK := NO_FLAGS.(ack := true)
  const SYN := NO_FLAGS.(syn := true)
  const SYN_ACK := NO_FLAGS.(syn := true, ack := true)
  const FIN_ACK := NO_FLAGS.(fin := true, ack := true)

  /** A segment of a synchronized connection: it acknowledges `rcv_nxt` and advertises the window. */
  function MakeSegment(key: Key, c: Conn, seqno: u32, flags: Flags, options: seq<u8>, payload: seq<u8>): Segment {
    Segment(key.localPort, key.remotePort, seqno, c.rcv.nxt, flags,
            AdvertisedWindow(c.rcv, c.opt, c.opt.scaling), 0, options, payload)
  }

  function MakeSynAck(key: Key, c: Conn): Segment {
    Segment(key.localPort, key.remotePort, c.localIsn, At(c.remoteIsn, 1), SYN_ACK,
            AdvertisedWindow(c.rcv, c.opt, false), 0,
            BuildSynAckOptions(c.opt.sack, c.opt.scaling, c.opt.localScale), [])
  }

  function MakeActiveSyn(key: Key, c: Conn): Segment {
    Segment(key.localPort, key.remotePort, c.localIsn, 0, SYN,
            AdvertisedWindow(c.rcv, c.opt, false), 0, BuildActiveSynOptions(), [])
  }

  function MakeFin(key: Key, c: Conn): Segment { MakeSegment(key, c, c.snd.nxt, FIN_ACK, [], []) }

  function Reverse<T>(s: seq<T>): (r: seq<T>)
    ensures |r| == |s| && forall i | 0 <= i < |s| :: r[i] == s[|s| - 1 - i]
  {
    if s == [] then [] else Reverse(s[1..]) + [s[0]]
  }

  function FragmentIndex(fs: seq<Fragment>, start: u32): (i: nat)
    ensures i <= |fs| && (i < |fs| ==> fs[i].start == start)
  {
    if fs == [] then 0 else if fs[0].start == start then 0 else 1 + FragmentIndex(fs[1..], start)
  }

  function Blocks(fs: seq<Fragment>): (bs: seq<SackBlock>)
    ensures |bs| == |fs| && forall i | 0 <= i < |fs| :: bs[i] == SackBlock(fs[i].start, fs[i].End())
  {
    if fs == [] then [] else [SackBlock(fs[0].start, fs[0].End())] + Blocks(fs[1..])
  }

  /** At most four blocks: the most recent fragment first, the others from the highest down. */
  function GenerateSackBlocks(fs: seq<Fragment>, mostRecent: Option<u32>): (bs: seq<SackBlock>)
    ensures |bs| <= 4
  {
    var k := if mostRecent.Some? then FragmentIndex(fs, mostRecent.value) else |fs|;
    var ordered := if k < |fs| then [fs[k]] + Reverse(fs[..k] + fs[k + 1..]) else Reverse(fs);
    Blocks(Take(ordered, 4))
  }

  function MakePureAck(key: Key, c: Conn, mostRecent: Option<u32>): Segment {
    MakeSegment(key, c, c.snd.nxt, ACK,
                if c.opt.sack then BuildSackOptions(GenerateSackBlocks(c.rcv.fragments, mostRecent)) else [], [])
  }

  // ---------------------------------------------------------------- windows

  function Flight(s: SendState): nat { Sub(s.nxt, s.una) }

  function AvailableSendWindow(s: SendState): nat { if Flight(s) >= s.wnd then 0 else s.wnd - Flight(s) }

  function AvailableCongestionWindow(s: SendState, cwnd: nat): nat {
    if Flight(s) >= cwnd then 0 else cwnd - Flight(s)
  }

  function DecodePeerWindow(opt: Negotiated, raw: u16): nat {
    if opt.scaling then Shift(raw, opt.peerScale) else raw
  }

  function UpdateSendWindow(s: SendState, opt: Negotiated, seg: Segment): SendState {
    if SeqGreater(seg.seqno, s.wl1) || (seg.seqno == s.wl1 && SeqLessOrEqual(s.wl2, seg.ackno))
    then s.(wnd := DecodePeerWindow(opt, seg.window), wl1 := seg.seqno, wl2 := seg.ackno)
    else s
  }

  function OwnedInPending(pending: seq<Pending>): nat {
    if pending == [] then 0
    else (if pending[0].IsData() then |pending[0].payload| else 0) + OwnedInPending(pending[1..])
  }

  /** What is charged against the send buffer. */
  function OwnedBytes(s: SendState): nat { |s.unsent| + OwnedInPending(s.pending) }

  // ---------------------------------------------------------------- retirement

  /** `keep` says that the entry the sample was taken from is still in front, trimmed. */
  datatype Retirement = Retirement(pending: seq<Pending>, dataBytes: nat, sample: Option<int>, keep: bool)

  function Eligible(e: Pending): bool { !e.resent && !e.sampled }

  function Retire(pending: seq<Pending>, ack: u32): (r: Retirement)
    ensures r.keep ==> r.pending != [] && r.sample.Some?
  {
    if pending == [] then Retirement([], 0, None, false)
    else
      var e := pending[0];
      if SeqLessOrEqual(e.End(), ack) then
        var r := Retire(pending[1..], ack);
        var own := if Eligible(e) then Some(e.firstSentAt) else None;
        Retirement(r.pending, |e.payload| + r.dataBytes, if r.sample.Some? then r.sample else own, r.keep)
      else if SeqGreater(ack, e.start) then
        var trimmed := Sub(ack, e.start);
        Retirement([e.(start := ack, payload := Drop(e.payload, trimmed), recovered := false)] + pending[1..],
                   trimmed, if Eligible(e) then Some(e.firstSentAt) else None, Eligible(e))
      else Retirement(pending, 0, None, false)
  }

  datatype AckResult = AckResult(advanced: bool, space: nat, dataBytes: nat)

  function RetireAcknowledged(c: Conn, ack: u32, now: int): (Conn, AckResult) {
    if !SeqGreater(ack, c.snd.una) then (c, AckResult(false, 0, 0))
    else
      var r := Retire(c.snd.pending, ack);
      var sampled := r.sample.Some? && r.sample.value <= now;
      var pending := if sampled && r.keep then r.pending[0 := r.pending[0].(sampled := true)] else r.pending;
      (c.(snd := c.snd.(una := ack, pending := pending),
          rtt := if sampled then RecordSample(c.rtt, now - r.sample.value) else c.rtt),
       AckResult(true, Sub(ack, c.snd.una), r.dataBytes))
  }

  // ---------------------------------------------------------------- scheduling

  function ToSend(c: Conn): nat {
    Min(Min(AvailableSendWindow(c.snd), AvailableCongestionWindow(c.snd, c.cc.cwnd)),
        Min(|c.snd.unsent|, MAX_SEGMENTS_PER_SEND * c.opt.sendMss))
  }

  /** MSS-sized segments for `data` from sequence number `seqno`; PSH only where `drain` ends the queue. */
  function Segments(key: Key, c: Conn, seqno: u32, data: seq<u8>, drain: bool): seq<Segment>
    requires data == [] || c.opt.sendMss > 0
    decreases |data|
  {
    if data == [] then []
    else
      var n := Min(c.opt.sendMss, |data|);
      [MakeSegment(key, c, seqno, ACK.(psh := drain && n == |data|), [], data[..n])]
      + Segments(key, c, At(seqno, n), data[n..], drain)
  }

  function Entries(segments: seq<Segment>, now: int, rto: int): seq<Pending> {
    if segments == [] then []
    else [NewPending(segments[0].seqno, segments[0].flags, segments[0].payload, now, rto)]
         + Entries(segments[1..], now, rto)
  }

  function MaybeSequenceFin(key: Key, c: Conn, now: int): (Conn, seq<Segment>) {
    if !c.snd.closeRequested || c.snd.finSeq.Some? || c.snd.unsent != [] || AvailableSendWindow(c.snd) < 1
    then (c, [])
    else
      var fin := MakeFin(key, c);
      var entry := NewPending(c.snd.nxt, fin.flags, [], now, c.rtt.rto).(isFin := true);
      (c.(snd := c.snd.(pending := c.snd.pending + [entry], finSeq := Some(c.snd.nxt), nxt := At(c.snd.nxt, 1)),
          state := if c.state == Established then FinWait1 else LastAck),
       [fin])
  }

  predicate PersistEligible(c: Conn) {
    c.Sendable() && c.snd.unsent != [] && c.snd.wnd == 0 && c.snd.nxt == c.snd.una && c.snd.finSeq.None?
  }

  function UpdatePersist(c: Conn, now: int): Conn {
    if !PersistEligible(c) then c.(persist := c.persist.(deadline := None))
    else if c.persist.deadline.None? then
      c.(persist := PersistState(Some(now + INITIAL_PERSIST_INTERVAL), INITIAL_PERSIST_INTERVAL))
    else c
  }

  /** The data part of one scheduling pass. */
  function ScheduleData(key: Key, c: Conn, now: int): (Conn, seq<Segment>) {
    var n := ToSend(c);
    var segments := Segments(key, c, c.snd.nxt, c.snd.unsent[..n], n == |c.snd.unsent|);
    (c.(snd := c.snd.(pending := c.snd.pending + Entries(segments, now, c.rtt.rto),
                      unsent := c.snd.unsent[n..], nxt := At(c.snd.nxt, n))),
     segments)
  }

  function Schedule(key: Key, c: Conn, now: int): (Conn, seq<Segment>) {
    var (c1, data) := ScheduleData(key, c, now);
    var (c2, fin) := if c1.snd.unsent == [] then MaybeSequenceFin(key, c1, now) else (c1, []);
    (UpdatePersist(c2, now), data + fin)
  }

  // ---------------------------------------------------------------- recovery

  /** The lowest entry a recovery may resend, found with the early exit of the source. */
  function SelectRecovery(pending: seq<Pending>, recoveryPoint: u32): Option<nat> {
    if pending == [] then None
    else if !pending[0].IsData() then Next(SelectRecovery(pending[1..], recoveryPoint))
    else if !SeqGreater(recoveryPoint, pending[0].start) then None
    else if pending[0].sacked || pending[0].recovered then Next(SelectRecovery(pending[1..], recoveryPoint))
    else Some(0)
  }

  function Next(i: Option<nat>): Option<nat> { if i.Some? then Some(i.value + 1) else None }

  function ResendSegment(key: Key, c: Conn, e: Pending): Segment {
    MakeSegment(key, c, e.start, e.flags, [], e.payload)
  }

  /** Resends the selected entry, if any, and marks it. */
  function RecoveryResend(key: Key, c: Conn, now: int): (Conn, Option<Segment>) {
    var i := SelectRecovery(c.snd.pending, c.cc.recoveryPoint);
    if i.None? || i.value >= |c.snd.pending| then (c, None)
    else
      var e := c.snd.pending[i.value];
      (c.(snd := c.snd.(pending := c.snd.pending[i.value := e.(resent := true, recovered := true, lastSentAt := now)])),
       Some(ResendSegment(key, c, e)))
  }

  function ClearRecovered(pending: seq<Pending>): seq<Pending> {
    if pending == [] then [] else [pending[0].(recovered := false)] + ClearRecovered(pending[1..])
  }

  function ClearScoreboard(pending: seq<Pending>): (cleared: seq<Pending>)
    ensures |cleared| == |pending|
  {
    if pending == [] then []
    else [pending[0].(sacked := false, recovered := false)] + ClearScoreboard(pending[1..])
  }

  function BeginFastRecovery(key: Key, c: Conn, now: int): (Conn, Option<Segment>) {
    RecoveryResend(key,
      c.(cc := EnterRecovery(c.cc, c.opt.sendMss, Flight(c.snd), c.snd.nxt),
         snd := c.snd.(pending := ClearRecovered(c.snd.pending))),
      now)
  }

  // ---------------------------------------------------------------- the SACK scoreboard

  /** The block truly lies above the cumulative ACK and ends at or below `snd_nxt`. */
  predicate TrueBlock(b: SackBlock, ack: u32, nxt: u32) {
    0 < Sub(b.left, ack) < Sub(b.right, ack) <= Sub(nxt, ack)
  }

  predicate InBlock(b: SackBlock, ack: u32, x: u32) { Sub(b.left, ack) <= Sub(x, ack) < Sub(b.right, ack) }

  /** The set view: every byte of the entry lies in some true block. */
  predicate Covered(e: Pending, ack: u32, nxt: u32, blocks: seq<SackBlock>) {
    forall k | 0 <= k < |e.payload| :: Reported(At(e.start, k), ack, nxt, blocks)
  }

  predicate Reported(x: u32, ack: u32, nxt: u32, blocks: seq<SackBlock>) {
    exists b | b in blocks :: TrueBlock(b, ack, nxt) && InBlock(b, ack, x)
  }

  function MarkEntry(e: Pending, ack: u32, nxt: u32, blocks: seq<SackBlock>): Pending {
    if e.IsData() && Covered(e, ack, nxt, blocks) then e.(sacked := true) else e
  }

  function MarkSacked(pending: seq<Pending>, ack: u32, nxt: u32, blocks: seq<SackBlock>): seq<Pending> {
    if pending == [] then []
    else [MarkEntry(pending[0], ack, nxt, blocks)] + MarkSacked(pending[1..], ack, nxt, blocks)
  }
}
