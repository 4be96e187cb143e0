/**
 Whole runs of one connection: any sequence of arriving segments, application calls and timer
 polls, in any order and at any times.
 */
module ConnRuns {
  import opened Primitives
  import opened SequenceSpace
  import opened TcpOptions
  import opened TcpSegments
  import opened TcpTypes
  import opened Receiving
  import opened CongestionControl
  import opened TcpEngine
  import opened PendingQueue
  import opened ReceiveInvariant
  import opened ConnInvariant
  import opened AckPhase
  import opened ReceivePhase
  import opened ConnSteps
  import opened CallSteps

  datatype Event = Deliver(segment: Segment) | Write(payload: seq<u8>) | Close | PollRetransmissions | PollProbes

  /** Segments to transmit, bytes taken from and delivered to the application, and end-of-stream signals. */
  datatype Output = Output(sent: seq<Segment>, taken: seq<u8>, delivered: seq<u8>, closes: nat)

  function Nothing(): Output { Output([], [], [], 0) }

  function Then(a: Output, b: Output): Output {
    Output(a.sent + b.sent, a.taken + b.taken, a.delivered + b.delivered, a.closes + b.closes)
  }

  function Lone(s: Option<Segment>): seq<Segment> { if s.Some? then [s.value] else [] }

  /** One event.  A connection marked for removal is gone. */
  function Step(key: Key, c: Conn, e: Event, now: int): (Conn, Output) {
    match e
    case Deliver(seg) =>
      var (c', r) := Handle(key, c, seg, now);
      (c', Output(Sent(r), [], r.accepted, if r.peerClosed then 1 else 0))
    case Write(payload) =>
      var (c', r) := MakeOutgoingData(key, c, payload, now);
      (c', if r.Ok? then Output(r.value, payload, [], 0) else Nothing())
    case Close =>
      var (c', r) := BeginClose(key, c, now);
      (c', Nothing().(sent := Lone(r.fin)))
    case PollRetransmissions =>
      var (c', r) := PollRetransmission(key, c, now);
      (c', Nothing().(sent := if r.Resent? then [r.segment] else []))
    case PollProbes =>
      var (c', probe) := PollPersist(key, c, now);
      (c', Nothing().(sent := Lone(probe)))
  }

  function HandleView(key: Key, c: Conn, v: View, seg: Segment, now: int): View {
    match c.state
    case TimeWait => v
    case SynSent => if |c.snd.pending| == 1 then SynSentView(c, v, seg, now) else v
    case SynReceived => if |c.snd.pending| == 1 then SynReceivedView(c, v, seg, now) else v
    case _ => SynchronizedView(key, c, v, seg, now)
  }

  function StepView(key: Key, c: Conn, v: View, e: Event, now: int): View {
    match e
    case Deliver(seg) => HandleView(key, c, v, seg, now)
    case Write(payload) => SendView(key, c, v, payload, now)
    case Close => CloseView(c, v)
    case PollRetransmissions => PollView(c, v, now)
    case PollProbes => v
  }

  /** An arriving segment is near enough to be told from one a wrap away. */
  predicate TimelyEvent(c: Conn, e: Event) {
    e.Deliver? && c.Synchronized() && !e.segment.flags.rst ==> Timely(c.rcv, c.opt, e.segment)
  }

  lemma HandleKeepsValid(key: Key, c: Conn, v: View, seg: Segment, now: int)
    requires ConnValid(c, v) && TimelyEvent(c, Deliver(seg))
    ensures var (c', r) := Handle(key, c, seg, now); Handled(c', r, v, HandleView(key, c, v, seg, now))
  {
    hide Handled, Timely, SyncValid, OpeningValid, HandleSynchronized, HandleTimeWait, HandleSynSent, HandleSynReceived,
         SynSentView, SynReceivedView, SynchronizedView;
    match c.state
    case TimeWait => HandleTimeWaitKeepsValid(key, c, v, seg, now);
    case SynSent => OneEntry(c, v); HandleSynSentKeepsValid(key, c, v, seg, now);
    case SynReceived => OneEntry(c, v); HandleSynReceivedKeepsValid(key, c, v, seg, now);
    case _ => HandleSynchronizedKeepsValid(key, c, v, seg, now);
  }

  lemma OneEntry(c: Conn, v: View)
    requires SynSentValid(c, v) || SynReceivedValid(c, v)
    ensures |c.snd.pending| == 1
  {
  }

  /** What every event keeps, and what it adds to the history. */
  ghost predicate Stepped(c': Conn, out: Output, v: View, v': View) {
    && (!c'.removal ==> ConnValid(c', v'))
    && Extends(v, v') && v'.nxt <= v'.una + REACH
    && v'.ledger.stream == v.ledger.stream + out.taken
    && v'.delivered == v.delivered + out.delivered
    && v'.peerFin == (v.peerFin || out.closes == 1) && out.closes <= (if v.peerFin then 0 else 1)
    && AllGenuine(out.sent, v')
  }

  lemma StepKeepsValid(key: Key, c: Conn, v: View, e: Event, now: int)
    requires ConnValid(c, v) && TimelyEvent(c, e)
    ensures var (c', out) := Step(key, c, e, now); Stepped(c', out, v, StepView(key, c, v, e, now))
  {
    hide ConnValid, Handle, HandleView, MakeOutgoingData, SendView, BeginClose, CloseView, PollRetransmission, PollView,
         PollPersist, IsGenuine, Remembers, TimelyEvent, Sent, Genuine;
    var (c', v') := (Step(key, c, e, now).0, StepView(key, c, v, e, now));
    FlightIsNear(c, v);
    match e {
      case Deliver(seg) => HandleKeepsValid(key, c, v, seg, now);
      case Write(payload) => SendKeepsValid(key, c, v, payload, now); FlightIsNear(c', v');
      case Close => CloseKeepsValid(key, c, v, now); FlightIsNear(c', v');
      case PollRetransmissions => PollKeepsValid(key, c, v, now);
      case PollProbes =>
        PersistKeepsValid(key, c, v, now);
        RemembersItself(v.ledger);
        var probe := PollPersist(key, c, now).1;
        if probe.Some? {
          ProbeBelow(c, v, probe.value);
        }
    }
  }

  lemma RemembersItself(l: Ledger)
    ensures Remembers(l, l)
  {
  }

  lemma ProbeBelow(c: Conn, v: View, probe: Segment)
    requires 1 <= v.una && Genuine(probe, v.una - 1, v.rcv, v)
    ensures IsGenuine(probe, v)
  {
    var pos: nat := v.una - 1;
    assert Genuine(probe, pos, v.rcv, v);
  }

  // ---------------------------------------------------------------- runs

  datatype Input = Input(event: Event, now: int)

  function Run(key: Key, c: Conn, inputs: seq<Input>): (Conn, Output)
    decreases |inputs|
  {
    if inputs == [] || c.removal then (c, Nothing())
    else
      var (c1, out) := Step(key, c, inputs[0].event, inputs[0].now);
      var (c2, rest) := Run(key, c1, inputs[1..]);
      (c2, Then(out, rest))
  }

  predicate TimelyRun(key: Key, c: Conn, inputs: seq<Input>)
    decreases |inputs|
  {
    inputs == [] || c.removal
    || (TimelyEvent(c, inputs[0].event) && TimelyRun(key, Step(key, c, inputs[0].event, inputs[0].now).0, inputs[1..]))
  }

  function RunView(key: Key, c: Conn, v: View, inputs: seq<Input>): View
    decreases |inputs|
  {
    if inputs == [] || c.removal then v
    else
      var i := inputs[0];
      RunView(key, Step(key, c, i.event, i.now).0, StepView(key, c, v, i.event, i.now), inputs[1..])
  }

  lemma ExtendsAll(a: View, b: View, c: View)
    requires Extends(a, b) && Extends(b, c)
    ensures Extends(a, c)
  {
  }

  lemma AllGenuineStays(segs: seq<Segment>, more: seq<Segment>, v: View, v': View)
    requires AllGenuine(segs, v) && Extends(v, v') && AllGenuine(more, v')
    ensures AllGenuine(segs + more, v')
  {
    hide IsGenuine, Extends;
    forall s | s in segs + more
      ensures IsGenuine(s, v')
    {
      if s in segs {
        IsGenuineStays(s, v, v');
      }
    }
  }

  lemma SteppedTwice(c: Conn, a: Output, b: Output, v: View, v1: View, v2: View, c1: Conn)
    requires Stepped(c1, a, v, v1) && Stepped(c, b, v1, v2)
    ensures Stepped(c, Then(a, b), v, v2)
  {
    hide ConnValid, Extends, AllGenuine;
    ExtendsAll(v, v1, v2);
    AllGenuineStays(a.sent, b.sent, v1, v2);
    assert v.ledger.stream + a.taken + b.taken == v.ledger.stream + (a.taken + b.taken);
    assert v.delivered + a.delivered + b.delivered == v.delivered + (a.delivered + b.delivered);
  }

  lemma SteppedNot(c: Conn, v: View)
    requires (c.removal || ConnValid(c, v)) && v.nxt <= v.una + REACH
    ensures Stepped(c, Nothing(), v, v)
  {
    hide ConnValid;
    assert v.ledger.stream + [] == v.ledger.stream;
    assert v.delivered + [] == v.delivered;
  }

  /**
   Every run, of any length, against any peer: the invariant holds at its end, the accepted
   stream is what the application wrote, the peer's end of stream is signalled at most once, and
   every segment ever sent is genuine.
   */
  lemma {:induction false} RunKeepsValid(key: Key, c: Conn, v: View, inputs: seq<Input>)
    requires (c.removal || ConnValid(c, v)) && v.nxt <= v.una + REACH
    requires TimelyRun(key, c, inputs)
    ensures var (c', out) := Run(key, c, inputs); Stepped(c', out, v, RunView(key, c, v, inputs))
    decreases |inputs|
  {
    hide ConnValid, Step, StepView, Stepped, Then, TimelyEvent;
    if inputs == [] || c.removal {
      SteppedNot(c, v);
    } else {
      var i := inputs[0];
      var (c1, out) := Step(key, c, i.event, i.now);
      var v1 := StepView(key, c, v, i.event, i.now);
      StepKeepsValid(key, c, v, i.event, i.now);
      SteppedValid(c1, out, v, v1);
      RunKeepsValid(key, c1, v1, inputs[1..]);
      var (c2, rest) := Run(key, c1, inputs[1..]);
      SteppedTwice(c2, out, rest, v, v1, RunView(key, c1, v1, inputs[1..]), c1);
    }
  }

  lemma SteppedValid(c: Conn, out: Output, v: View, v': View)
    requires Stepped(c, out, v, v')
    ensures !c.removal ==> ConnValid(c, v')
    ensures v'.nxt <= v'.una + REACH
  {
  }

  // ---------------------------------------------------------------- beginnings

  function OpeningView(isn: u32, peerKnown: bool, peerIsn: u32): View {
    View(Ledger(isn, [], 0, {}, {}), 0, 1, 0, false, peerKnown, peerIsn, if peerKnown then 1 else 0, [], false, false)
  }

  lemma ConnectValid(key: Key, isn: u32, now: int)
    ensures var (c, syn) := Connect(key, isn, now);
            ConnValid(c, OpeningView(isn, false, 0)) && IsGenuine(syn, OpeningView(isn, false, 0))
  {
    hide AdvertisedWindow, BuildActiveSynOptions;
    AtZero(isn);
    assert Genuine(Connect(key, isn, now).1, 0, 0, OpeningView(isn, false, 0));
  }

  lemma ListenValid(key: Key, isn: u32, seg: Segment, now: int)
    requires ParseOptions(seg.options).Ok?
    ensures var (c, synAck) := Listen(key, isn, seg, ParseOptions(seg.options).value, now);
            var v := OpeningView(isn, true, seg.seqno);
            ConnValid(c, v) && IsGenuine(synAck, v)
  {
    hide AdvertisedWindow, BuildSynAckOptions, ParseOptions, OptValid, InitialCwnd, IsGenuine, At;
    ParsedMssPositive(seg.options, NO_OPTIONS);
    ParseIsParseFrom(seg.options);
    NegotiateValid(ParseOptions(seg.options).value);
    var (c, synAck) := Listen(key, isn, seg, ParseOptions(seg.options).value, now);
    SynAckIsGenuine(key, c, OpeningView(isn, true, seg.seqno));
  }

  /** The same from the first segment on: an active open followed by any run. */
  lemma ConnectRun(key: Key, isn: u32, now: int, inputs: seq<Input>)
    requires TimelyRun(key, Connect(key, isn, now).0, inputs)
    ensures var (c, syn) := Connect(key, isn, now);
            var (c', out) := Run(key, c, inputs);
            var v' := RunView(key, c, OpeningView(isn, false, 0), inputs);
            && (c'.removal || ConnValid(c', v'))
            && v'.ledger.isn == isn && v'.ledger.stream == out.taken && v'.delivered == out.delivered
            && out.closes <= 1 && AllGenuine([syn] + out.sent, v')
  {
    hide ConnValid, Connect, Run, RunView, TimelyRun, IsGenuine;
    var (c, syn) := Connect(key, isn, now);
    var v := OpeningView(isn, false, 0);
    ConnectValid(key, isn, now);
    RunKeepsValid(key, c, v, inputs);
    assert AllGenuine([syn], v);
    AllGenuineStays([syn], Run(key, c, inputs).1.sent, v, RunView(key, c, v, inputs));
  }

  /** And a passive open followed by any run. */
  lemma ListenRun(key: Key, isn: u32, seg: Segment, now: int, inputs: seq<Input>)
    requires ParseOptions(seg.options).Ok?
    requires TimelyRun(key, Listen(key, isn, seg, ParseOptions(seg.options).value, now).0, inputs)
    ensures var (c, synAck) := Listen(key, isn, seg, ParseOptions(seg.options).value, now);
            var (c', out) := Run(key, c, inputs);
            var v' := RunView(key, c, OpeningView(isn, true, seg.seqno), inputs);
            && (c'.removal || ConnValid(c', v'))
            && v'.ledger.isn == isn && v'.ledger.stream == out.taken && v'.delivered == out.delivered
            && out.closes <= 1 && AllGenuine([synAck] + out.sent, v')
  {
    hide ConnValid, Listen, Run, RunView, TimelyRun, IsGenuine, ParseOptions;
    var (c, synAck) := Listen(key, isn, seg, ParseOptions(seg.options).value, now);
    var v := OpeningView(isn, true, seg.seqno);
    ListenValid(key, isn, seg, now);
    RunKeepsValid(key, c, v, inputs);
    assert AllGenuine([synAck], v);
    AllGenuineStays([synAck], Run(key, c, inputs).1.sent, v, RunView(key, c, v, inputs));
  }
}
