/** The state of one connection, as the connection table keeps it. */
module TcpTypes {
  import opened Primitives
  import opened SequenceSpace
  import opened TcpSegments
  import opened CongestionControl

  // Times are in nanoseconds, the tick of the steady clock.
  const SECOND: int := 1_000_000_000
  const INITIAL_RTO: int := SECOND
  const MIN_RTO: int := SECOND
  const MAX_RTO: int := 60 * SECOND
  const RTO_GRANULARITY: int := 1_000_000
  const MAX_RETRANSMITS: nat := 5
  const TIME_WAIT_DURATION: int := 60 * SECOND
  const INITIAL_PERSIST_INTERVAL: int := SECOND
  const MAX_PERSIST_INTERVAL: int := 60 * SECOND

  const SEND_BUFFER_CAPACITY: nat := 262144
  const MAX_APPLICATION_SEND: nat := 65535
  const MAX_SEGMENTS_PER_SEND: nat := 128
  const DEFAULT_PEER_MSS: u16 := 536
  const MAX_WINDOW_SCALE: u8 := 14

  datatype TcpState =
    SynSent | SynReceived | Established | FinWait1 | FinWait2 | CloseWait | Closing | LastAck | TimeWait

  datatype Key = Key(localIp: u32, localPort: u16, remoteIp: u32, remotePort: u16)

  /**
   One retransmission entry.  `resent` is set by every resend but the reply to a duplicate
   SYN, `sampled` once the entry gave a round-trip sample, `recovered` once it was resent in
   the current recovery episode.
   */
  datatype Pending = Pending(
    start: u32, isSyn: bool, isActiveSyn: bool, isFin: bool, flags: Flags, payload: seq<u8>,
    firstSentAt: int, lastSentAt: int, interval: int, timeouts: nat,
    resent: bool, sampled: bool, sacked: bool, recovered: bool)
  {
    function Length(): nat { |payload| + (if isSyn then 1 else 0) + (if isFin then 1 else 0) }
    function End(): u32 { At(start, Length()) }
    predicate IsData() { !isSyn && !isFin }
    function Deadline(): int { lastSentAt + interval }
  }

  datatype Fragment = Fragment(start: u32, payload: seq<u8>) {
    function End(): u32 { At(start, |payload|) }
  }

  datatype SendState = SendState(
    una: u32, nxt: u32, pending: seq<Pending>, unsent: seq<u8>, finSeq: Option<u32>, closeRequested: bool,
    wnd: nat, wl1: u32, wl2: u32)

  datatype RecvState = RecvState(nxt: u32, fragments: seq<Fragment>, pendingFin: Option<u32>)

  datatype Negotiated = Negotiated(
    peerMss: u16, sendMss: u16, peerScale: u8, localScale: u8, scaling: bool, sack: bool)

  datatype RttState = RttState(hasSample: bool, srtt: int, rttvar: int, rto: int)

  datatype PersistState = PersistState(deadline: Option<int>, interval: int)

  datatype Conn = Conn(
    state: TcpState, localIsn: u32, remoteIsn: u32, remoteKnown: bool,
    snd: SendState, rcv: RecvState, opt: Negotiated, rtt: RttState, cc: Congestion, persist: PersistState,
    timeWait: Option<int>, removal: bool)
  {
    predicate Sendable() { state == Established || state == CloseWait }

    predicate Synchronized() { state != SynSent && state != SynReceived }
  }

  /** A freshly constructed connection, before any field is negotiated. */
  function NewConn(state: TcpState, localIsn: u32): Conn {
    Conn(state, localIsn, 0, true,
         SendState(0, 0, [], [], None, false, 0, 0, 0), RecvState(0, [], None),
         Negotiated(DEFAULT_PEER_MSS, 1460, 0, 0, false, false),
         RttState(false, 0, 0, INITIAL_RTO),
         Congestion(0, INITIAL_SSTHRESH, 0, false, 0, 0),
         PersistState(None, INITIAL_PERSIST_INTERVAL), None, false)
  }

  function NewPending(start: u32, flags: Flags, payload: seq<u8>, now: int, rto: int): Pending {
    Pending(start, false, false, false, flags, payload, now, now, rto, 0, false, false, false, false)
  }

  datatype ReceiveResult = ReceiveResult(
    reply: Option<Segment>, fastRetransmit: Option<Segment>, scheduled: seq<Segment>, accepted: seq<u8>,
    peerClosed: bool, reset: bool, closed: bool, established: bool)

  const NOTHING := ReceiveResult(None, None, [], [], false, false, false, false)

  function Replying(s: Segment): ReceiveResult { NOTHING.(reply := Some(s)) }

  /** Everything a result asks the caller to transmit. */
  function Sent(r: ReceiveResult): seq<Segment> {
    (if r.fastRetransmit.Some? then [r.fastRetransmit.value] else [])
    + r.scheduled
    + (if r.reply.Some? then [r.reply.value] else [])
  }
}
