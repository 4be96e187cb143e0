/**
 Two endpoints and a network that may lose, duplicate and reorder.

 A network is the set of all segments an endpoint has sent so far; any of them may arrive at any
 time, any number of times or never, as long as it is not older than almost half the sequence
 space.  Each endpoint opens once.  An endpoint that is not open, or no longer, answers with
 resets.
 */
module TwoEndpoints {
  import opened Primitives
  import opened SequenceSpace
  import opened TcpOptions
  import opened TcpSegments
  import opened TcpTypes
  import opened TcpEngine
  import opened PendingQueue
  import opened ReceiveInvariant
  import opened ConnInvariant
  import opened ReceivePhase
  import opened ConnSteps
  import opened CallSteps
  import opened ConnRuns
  import opened Delivery

  /** What the application of one endpoint has seen: bytes written, bytes read, end-of-stream signals. */
  datatype Log = Log(written: seq<u8>, read: seq<u8>, ends: nat)

  const EMPTY_LOG := Log([], [], 0)

  function Record(log: Log, out: Output): Log {
    Log(log.written + out.taken, log.read + out.delivered, log.ends + out.closes)
  }

  /** An endpoint whose connection is marked for removal has been erased. */
  datatype End = Unopened | Opened(c: Conn, v: View, log: Log) {
    predicate Live() { Opened? && !c.removal }
  }

  datatype Action = Open(isn: u32) | Accept(isn: u32, syn: Segment) | Local(event: Event) | Arrive(segment: Segment)

  /** What may happen at an endpoint, given what its peer has sent. */
  ghost predicate Permitted(a: Action, me: End, peer: End, fromPeer: set<Segment>) {
    match a
    case Open(_) => me.Unopened?
    case Accept(_, syn) =>
      me.Unopened? && syn in fromPeer && syn.flags.syn && !syn.flags.ack && !syn.flags.rst
      && ParseOptions(syn.options).Ok?
    case Local(e) => me.Live() && !e.Deliver?
    case Arrive(seg) =>
      seg in fromPeer && (me.Live() && !seg.flags.rst ==> peer.Opened? && NotTooOld(seg, me.v, peer.v))
  }

  ghost predicate NotTooOld(seg: Segment, v: View, s: View) {
    exists pos: nat, ackPos: nat :: Genuine(seg, pos, ackPos, s) && Recent(pos, ackPos, v)
  }

  function StepEnd(key: Key, me: End, e: Event, now: int): (End, seq<Segment>)
    requires me.Opened?
  {
    var (c, out) := Step(key, me.c, e, now);
    (Opened(c, StepView(key, me.c, me.v, e, now), Record(me.log, out)), out.sent)
  }

  /** The endpoint after an action, and the segments it sends. */
  function Move(key: Key, me: End, a: Action, now: int): (End, seq<Segment>) {
    match a
    case Open(isn) =>
      var (c, syn) := Connect(key, isn, now);
      (Opened(c, OpeningView(isn, false, 0), EMPTY_LOG), [syn])
    case Accept(isn, syn) =>
      if ParseOptions(syn.options).Err? then (me, [])
      else
        var (c, synAck) := Listen(key, isn, syn, ParseOptions(syn.options).value, now);
        (Opened(c, OpeningView(isn, true, syn.seqno), EMPTY_LOG), [synAck])
    case Local(e) => if me.Live() then StepEnd(key, me, e, now) else (me, [])
    case Arrive(seg) =>
      if me.Live() then StepEnd(key, me, Deliver(seg), now)
      else (me, if seg.flags.rst then [] else [ClosedPortReset(seg)])
  }

  // ---------------------------------------------------------------- the invariant

  predicate EndValid(e: End) {
    e.Opened? ==>
      && (!e.c.removal ==> ConnValid(e.c, e.v)) && e.v.nxt <= e.v.una + REACH
      && e.log.written == e.v.ledger.stream && e.log.read == e.v.delivered
      && e.log.ends == (if e.v.peerFin then 1 else 0)
  }

  ghost predicate NetValid(net: set<Segment>, e: End) {
    forall s | s in net :: s.flags.rst || (e.Opened? && IsGenuine(s, e.v))
  }

  /** What the receiver `r` knows of the sender `s`. */
  ghost predicate Link(r: End, s: End) {
    if r.Opened? && s.Opened? then Follows(r.c.rcv, r.v, s.v)
    else if r.Opened? then Untouched(r.v)
    else s.Opened? ==> s.v.una == 0
  }

  ghost predicate Joint(me: End, peer: End, fromMe: set<Segment>, fromPeer: set<Segment>) {
    && EndValid(me) && EndValid(peer) && NetValid(fromMe, me) && NetValid(fromPeer, peer)
    && Link(me, peer) && Link(peer, me)
  }

  function Added(net: set<Segment>, segs: seq<Segment>): set<Segment> { net + set s | s in segs }

  lemma NetGrows(net: set<Segment>, segs: seq<Segment>, v: View, e: End)
    requires e.Opened? && AllGenuine(segs, e.v) && Extends(v, e.v)
    requires forall s | s in net :: s.flags.rst || IsGenuine(s, v)
    ensures NetValid(Added(net, segs), e)
  {
    hide IsGenuine, Extends;
    forall s | s in Added(net, segs) && !s.flags.rst
      ensures IsGenuine(s, e.v)
    {
      if s !in segs {
        IsGenuineStays(s, v, e.v);
      }
    }
  }

  /** The peer's history only grows, so what was received of it stays faithful. */
  lemma FollowsGrows(r: RecvState, v: View, s: View, s': View)
    requires Follows(r, v, s) && Extends(s, s') && s'.nxt <= s'.una + REACH
    requires if v.peerKnown then s'.una <= v.rcv else s'.una == 0
    ensures Follows(r, v, s')
  {
    hide Held, At;
    if v.peerKnown {
      assert forall o: nat :: FaithfulAt(Held(r, o), v.rcv + o, s) ==> FaithfulAt(Held(r, o), v.rcv + o, s');
    }
  }

  // ---------------------------------------------------------------- one action

  lemma OpenKeeps(key: Key, me: End, peer: End, fromMe: set<Segment>, fromPeer: set<Segment>, a: Action, now: int)
    requires Joint(me, peer, fromMe, fromPeer) && Permitted(a, me, peer, fromPeer) && (a.Open? || a.Accept?)
    ensures var (me', sent) := Move(key, me, a, now); Joint(me', peer, Added(fromMe, sent), fromPeer)
  {
    hide ConnValid, Connect, Listen, ParseOptions, Held;
    var (me', sent) := Move(key, me, a, now);
    match a {
      case Open(isn) =>
        ConnectValid(key, isn, now);
        OpenedRecv(key, isn, Segment(0, 0, 0, 0, NO_FLAGS, 0, 0, [], []), NO_OPTIONS, now);
      case Accept(isn, syn) =>
        ListenValid(key, isn, syn, now);
        OpenedRecv(key, isn, syn, ParseOptions(syn.options).value, now);
        var pos: nat, ackPos: nat :| Genuine(syn, pos, ackPos, peer.v);
        AtZero(peer.v.ledger.isn);
        EmptyFaithful(me'.c.rcv, 1, peer.v);
    }
    assert sent == [sent[0]] && AllGenuine(sent, me'.v);
    NetGrows(fromMe, sent, me'.v, me');
  }

  lemma OpenedRecv(key: Key, isn: u32, syn: Segment, o: ParsedOptions, now: int)
    ensures Connect(key, isn, now).0.rcv == RecvState(0, [], None) && !Connect(key, isn, now).0.removal
    ensures Listen(key, isn, syn, o, now).0.rcv == RecvState(0, [], None) && !Listen(key, isn, syn, o, now).0.removal
  {
  }

  /** A reset changes no history; at most it erases the connection. */
  lemma ResetIsQuiet(key: Key, c: Conn, v: View, seg: Segment, now: int)
    requires ConnValid(c, v) && seg.flags.rst
    ensures Quiet(c, Handle(key, c, seg, now).0, v, HandleView(key, c, v, seg, now))
  {
    hide SyncValid, OpeningValid, ParseOptions;
  }

  /** The application's calls and the polls leave the receive side alone. */
  lemma LocalIsQuiet(key: Key, c: Conn, v: View, e: Event, now: int)
    requires ConnValid(c, v) && !e.Deliver?
    ensures Quiet(c, Step(key, c, e, now).0, v, StepView(key, c, v, e, now))
  {
    hide ConnValid, MakeOutgoingData, SendView, BeginClose, CloseView, PollRetransmission, PollView, PollPersist,
         IsGenuine, Extends;
    match e {
      case Write(payload) => SendKeepsValid(key, c, v, payload, now);
      case Close => CloseKeepsValid(key, c, v, now);
      case PollRetransmissions => PollKeepsValid(key, c, v, now);
      case PollProbes => PersistKeepsValid(key, c, v, now);
    }
  }

  /** How one event of a live endpoint changes what it knows of its peer, and how far it counts itself acknowledged. */
  ghost predicate Advances(me: End, peer: End, c': Conn, v': View)
    requires me.Opened?
  {
    && (if peer.Opened? then Follows(c'.rcv, v', peer.v) else Untouched(v'))
    && (v'.una == me.v.una || (peer.Opened? && peer.v.peerKnown && v'.una <= peer.v.rcv))
  }

  lemma QuietAdvances(me: End, peer: End, c': Conn, v': View)
    requires me.Opened? && Link(me, peer) && Quiet(me.c, c', me.v, v')
    ensures Advances(me, peer, c', v')
  {
    hide Held, At;
    if peer.Opened? {
      FollowsSame(me.c.rcv, me.v, v', peer.v);
    }
  }

  lemma EventAdvances(key: Key, me: End, peer: End, fromMe: set<Segment>, fromPeer: set<Segment>, e: Event, now: int)
    requires Joint(me, peer, fromMe, fromPeer) && me.Live()
    requires if e.Deliver? then Permitted(Arrive(e.segment), me, peer, fromPeer)
             else Permitted(Local(e), me, peer, fromPeer)
    ensures TimelyEvent(me.c, e)
    ensures Advances(me, peer, Step(key, me.c, e, now).0, StepView(key, me.c, me.v, e, now))
  {
    hide ConnValid, Follows, Handle, HandleView, MakeOutgoingData, SendView, BeginClose, CloseView, PollRetransmission,
         PollView, PollPersist, Genuine, Recent, Quiet, Timely;
    if !e.Deliver? {
      LocalIsQuiet(key, me.c, me.v, e, now);
      QuietAdvances(me, peer, Step(key, me.c, e, now).0, StepView(key, me.c, me.v, e, now));
    } else if e.segment.flags.rst {
      ResetIsQuiet(key, me.c, me.v, e.segment, now);
      QuietAdvances(me, peer, Step(key, me.c, e, now).0, StepView(key, me.c, me.v, e, now));
    } else {
      var pos: nat, ackPos: nat :| Genuine(e.segment, pos, ackPos, peer.v) && Recent(pos, ackPos, me.v);
      FollowsBound(peer.c.rcv, peer.v, me.v);
      ArrivalFollows(key, me.c, me.v, peer.v, e.segment, now, pos, ackPos);
    }
  }

  lemma FollowsBound(r: RecvState, v: View, s: View)
    requires Follows(r, v, s)
    ensures v.peerKnown ==> v.peerIsn == s.ledger.isn && v.rcv <= s.nxt
  {
  }

  lemma EventKeeps(key: Key, me: End, peer: End, fromMe: set<Segment>, fromPeer: set<Segment>, e: Event, now: int)
    requires Joint(me, peer, fromMe, fromPeer) && me.Live()
    requires if e.Deliver? then Permitted(Arrive(e.segment), me, peer, fromPeer)
             else Permitted(Local(e), me, peer, fromPeer)
    ensures var (me', sent) := StepEnd(key, me, e, now); Joint(me', peer, Added(fromMe, sent), fromPeer)
  {
    hide ConnValid, Follows, Step, StepView, Permitted, IsGenuine, TimelyEvent;
    EventAdvances(key, me, peer, fromMe, fromPeer, e, now);
    StepKeepsValid(key, me.c, me.v, e, now);
    var (me', sent) := StepEnd(key, me, e, now);
    NetGrows(fromMe, sent, me.v, me');
    if peer.Opened? {
      FollowsUna(peer.c.rcv, peer.v, me.v);
      FollowsGrows(peer.c.rcv, peer.v, me.v, me'.v);
    } else {
      assert me'.v.una == me.v.una;
    }
  }

  lemma FollowsUna(r: RecvState, v: View, s: View)
    requires Follows(r, v, s)
    ensures if v.peerKnown then s.una <= v.rcv else s.una == 0
  {
  }

  /** Every action at one endpoint keeps the joint invariant. */
  lemma MoveKeeps(key: Key, me: End, peer: End, fromMe: set<Segment>, fromPeer: set<Segment>, a: Action, now: int)
    requires Joint(me, peer, fromMe, fromPeer) && Permitted(a, me, peer, fromPeer)
    ensures var (me', sent) := Move(key, me, a, now); Joint(me', peer, Added(fromMe, sent), fromPeer)
  {
    hide ConnValid, EndValid, Link, StepEnd, IsGenuine, NotTooOld;
    if a.Open? || a.Accept? {
      OpenKeeps(key, me, peer, fromMe, fromPeer, a, now);
    } else if a.Local? {
      EventKeeps(key, me, peer, fromMe, fromPeer, a.event, now);
    } else if me.Live() {
      EventKeeps(key, me, peer, fromMe, fromPeer, Deliver(a.segment), now);
    } else {
      assert ClosedPortReset(a.segment).flags.rst;
    }
  }

  // ---------------------------------------------------------------- runs of the whole system

  datatype World = World(a: End, b: End, fromA: set<Segment>, fromB: set<Segment>)

  const START := World(Unopened, Unopened, {}, {})

  datatype Turn = Turn(atA: bool, action: Action, now: int)

  ghost predicate Legal(w: World, t: Turn) {
    if t.atA then Permitted(t.action, w.a, w.b, w.fromB) else Permitted(t.action, w.b, w.a, w.fromA)
  }

  function Next(keyA: Key, keyB: Key, w: World, t: Turn): World {
    if t.atA then
      var (a, sent) := Move(keyA, w.a, t.action, t.now);
      w.(a := a, fromA := Added(w.fromA, sent))
    else
      var (b, sent) := Move(keyB, w.b, t.action, t.now);
      w.(b := b, fromB := Added(w.fromB, sent))
  }

  function Play(keyA: Key, keyB: Key, w: World, turns: seq<Turn>): World
    decreases |turns|
  {
    if turns == [] then w else Play(keyA, keyB, Next(keyA, keyB, w, turns[0]), turns[1..])
  }

  ghost predicate LegalPlay(keyA: Key, keyB: Key, w: World, turns: seq<Turn>)
    decreases |turns|
  {
    turns == [] || (Legal(w, turns[0]) && LegalPlay(keyA, keyB, Next(keyA, keyB, w, turns[0]), turns[1..]))
  }

  lemma {:induction false} PlayKeeps(keyA: Key, keyB: Key, w: World, turns: seq<Turn>)
    requires Joint(w.a, w.b, w.fromA, w.fromB) && LegalPlay(keyA, keyB, w, turns)
    ensures var w' := Play(keyA, keyB, w, turns); Joint(w'.a, w'.b, w'.fromA, w'.fromB)
    decreases |turns|
  {
    hide Move, EndValid, NetValid, Link, Permitted;
    if turns != [] {
      var t := turns[0];
      if t.atA {
        MoveKeeps(keyA, w.a, w.b, w.fromA, w.fromB, t.action, t.now);
      } else {
        MoveKeeps(keyB, w.b, w.a, w.fromB, w.fromA, t.action, t.now);
      }
      PlayKeeps(keyA, keyB, Next(keyA, keyB, w, t), turns[1..]);
    }
  }

  /** What reaches `r` of what `s` wrote. */
  predicate InOrder(r: End, s: End) {
    r.Opened? && s.Opened? ==>
      && r.log.read <= s.log.written
      && r.log.ends <= 1
      && (r.log.ends == 1 ==> s.v.finSent && r.log.read == s.log.written)
  }

  lemma LinkInOrder(r: End, s: End)
    requires EndValid(r) && EndValid(s) && Link(r, s)
    ensures InOrder(r, s)
  {
    hide ConnValid, Held;
  }

  /**
   The service both applications get, after any number of actions in any order, with any loss,
   duplication and reordering: what one reads is a prefix of what the other wrote, and the end
   of stream is signalled at most once, after everything that was ever written.
   */
  lemma ReliableStreams(keyA: Key, keyB: Key, turns: seq<Turn>)
    requires LegalPlay(keyA, keyB, START, turns)
    ensures var w := Play(keyA, keyB, START, turns); InOrder(w.a, w.b) && InOrder(w.b, w.a)
  {
    hide EndValid, Link, Move, Play, LegalPlay, InOrder;
    assert Joint(START.a, START.b, {}, {}) by { StartIsJoint(); }
    PlayKeeps(keyA, keyB, START, turns);
    var w := Play(keyA, keyB, START, turns);
    LinkInOrder(w.a, w.b);
    LinkInOrder(w.b, w.a);
  }

  lemma StartIsJoint()
    ensures Joint(Unopened, Unopened, {}, {})
  {
  }
}
