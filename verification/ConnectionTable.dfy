/**
 The connection table: admission, dispatch of arriving segments and the two polls over all
 connections.  `Table` is the table as a value; the class is proved to compute the functions on
 it, and its invariant keeps both capacity limits.
 */
module ConnectionTables {
  import opened Primitives
  import opened SequenceSpace
  import opened TcpOptions
  import opened TcpSegments
  import opened TcpTypes
  import opened Receiving
  import opened CongestionControl
  import opened Sending
  import opened TcpEngine
  import opened ConnInvariant
  import opened AckPhase
  import opened ConnSteps
  import opened CallSteps
  import opened ConnRuns
  import opened Connections

  datatype Table = Table(
    listenPort: u16, maxConnections: nat, maxHalfOpen: nat, connections: map<Key, Conn>, lastIsn: Option<u32>)

  predicate HalfOpen(c: Conn) { c.state == SynSent || c.state == SynReceived }

  function HalfOpenKeys(m: map<Key, Conn>): set<Key> { set k | k in m && HalfOpen(m[k]) }

  predicate AtCapacity(t: Table) {
    |t.connections| >= t.maxConnections || |HalfOpenKeys(t.connections)| >= t.maxHalfOpen
  }

  /** A drawn initial number is refused when it is missing or repeats the last one. */
  function FreshIsn(t: Table, drawn: Option<u32>): Option<u32> { if drawn == t.lastIsn then None else drawn }

  // ---------------------------------------------------------------- steps

  datatype ConnectError = InvalidPort | DuplicateConnection | CapacityExhausted | RandomnessUnavailable

  function Dial(t: Table, key: Key, drawn: Option<u32>, now: int): (Table, Result<Segment, ConnectError>) {
    if key.localPort == 0 || key.remotePort == 0 then (t, Err(InvalidPort))
    else if key in t.connections then (t, Err(DuplicateConnection))
    else if AtCapacity(t) then (t, Err(CapacityExhausted))
    else if FreshIsn(t, drawn).None? then (t, Err(RandomnessUnavailable))
    else
      var (c, syn) := Connect(key, drawn.value, now);
      (t.(connections := t.connections[key := c], lastIsn := drawn), Ok(syn))
  }

  datatype Arrival = Arrival(result: ReceiveResult, admissionRejected: bool)

  function Plain(r: ReceiveResult): Arrival { Arrival(r, false) }

  /** A segment for which there is no connection. */
  function ArriveUnmatched(t: Table, key: Key, seg: Segment, drawn: Option<u32>, now: int): (Table, Arrival) {
    if seg.flags.rst then (t, Plain(NOTHING))
    else if key.localPort != t.listenPort || !seg.flags.syn || seg.flags.ack then
      (t, Plain(Replying(ClosedPortReset(seg))))
    else
      var options := ParseOptions(seg.options);
      if options.Err? || options.value.sackBlocks != [] then (t, Plain(NOTHING))
      else if AtCapacity(t) then (t, Arrival(NOTHING, true))
      else if FreshIsn(t, drawn).None? then (t, Plain(NOTHING))
      else
        var (c, synAck) := Listen(key, drawn.value, seg, options.value, now);
        (t.(connections := t.connections[key := c], lastIsn := drawn), Plain(Replying(synAck)))
  }

  /** The table with `c` under `key`, or without it once it is marked for removal. */
  function Store(m: map<Key, Conn>, key: Key, c: Conn): map<Key, Conn> { if c.removal then m - {key} else m[key := c] }

  function Arrive(t: Table, key: Key, seg: Segment, drawn: Option<u32>, now: int): (Table, Arrival) {
    if key !in t.connections then ArriveUnmatched(t, key, seg, drawn, now)
    else
      var (c, r) := Handle(key, t.connections[key], seg, now);
      (t.(connections := Store(t.connections, key, c)), Plain(r))
  }

  /** What `pollRetransmissions` leaves and reports; the order of the reports is that of the keys. */
  datatype Polled = Polled(
    connections: map<Key, Conn>, retransmissions: map<Key, Segment>, timedOut: set<Key>, timeWaitExpired: set<Key>)

  function PollAll(m: map<Key, Conn>, now: int): Polled {
    Polled(
      map k | k in m && !PollRetransmission(k, m[k], now).0.removal :: PollRetransmission(k, m[k], now).0,
      map k | k in m && PollRetransmission(k, m[k], now).1.Resent? :: PollRetransmission(k, m[k], now).1.segment,
      set k | k in m && PollRetransmission(k, m[k], now).1.TimedOut?,
      set k | k in m && PollRetransmission(k, m[k], now).1.TimeWaitExpired?)
  }

  function ProbeAll(m: map<Key, Conn>, now: int): (map<Key, Conn>, map<Key, Segment>) {
    (map k | k in m :: PollPersist(k, m[k], now).0,
     map k | k in m && PollPersist(k, m[k], now).1.Some? :: PollPersist(k, m[k], now).1.value)
  }

  function SendTo(t: Table, key: Key, payload: seq<u8>, now: int): (Table, Result<seq<Segment>, SendError>) {
    if payload == [] then (t, Err(EmptyPayload))
    else if |payload| > MAX_APPLICATION_SEND then (t, Err(TooLarge))
    else if key !in t.connections then (t, Err(NotSendable))
    else
      var (c, r) := MakeOutgoingData(key, t.connections[key], payload, now);
      (t.(connections := Store(t.connections, key, c)), r)
  }

  function CloseAt(t: Table, key: Key, now: int): (Table, CloseResult) {
    if key !in t.connections then (t, CloseResult(false, None))
    else
      var (c, r) := BeginClose(key, t.connections[key], now);
      (t.(connections := Store(t.connections, key, c)), r)
  }

  // ---------------------------------------------------------------- admission

  predicate HasRoom(t: Table) {
    |t.connections| < t.maxConnections && |HalfOpenKeys(t.connections)| < t.maxHalfOpen
  }

  predicate Usable(t: Table, drawn: Option<u32>) { drawn.Some? && drawn != t.lastIsn }

  /** A connection is dialled exactly when ports, key, room and number allow it, and is then the only change. */
  lemma DialLaws(t: Table, key: Key, drawn: Option<u32>, now: int)
    ensures var (t', r) := Dial(t, key, drawn, now);
            && (r == Err(InvalidPort) <==> key.localPort == 0 || key.remotePort == 0)
            && (r == Err(DuplicateConnection) <==> key.localPort != 0 && key.remotePort != 0 && key in t.connections)
            && (r.Ok? <==>
                  && key.localPort != 0 && key.remotePort != 0 && key !in t.connections
                  && HasRoom(t) && Usable(t, drawn))
            && (r.Err? ==> t' == t)
            && (r.Ok? ==> && t'.connections.Keys == t.connections.Keys + {key} && t'.lastIsn == drawn
                          && (forall k | k in t.connections :: t'.connections[k] == t.connections[k])
                          && t'.connections[key].state == SynSent && t'.connections[key].localIsn == drawn.value
                          && r.value.seqno == drawn.value && r.value.flags == Sending.SYN)
  {
    hide BuildActiveSynOptions, AdvertisedWindow;
  }

  /** The segment asks for a new connection to the listening port. */
  predicate AsksToConnect(t: Table, key: Key, seg: Segment) {
    key.localPort == t.listenPort && seg.flags.syn && !seg.flags.ack && !seg.flags.rst
  }

  predicate GoodOffer(seg: Segment) {
    ParseOptions(seg.options).Ok? && ParseOptions(seg.options).value.sackBlocks == []
  }

  /**
   A segment without a connection: a reset is ignored, a good SYN to the listening port is accepted
   when there is room and a usable number, and everything but a SYN to that port is reset.
   */
  lemma UnmatchedLaws(t: Table, key: Key, seg: Segment, drawn: Option<u32>, now: int)
    requires key !in t.connections
    ensures var (t', r) := Arrive(t, key, seg, drawn, now);
            var accepted := AsksToConnect(t, key, seg) && GoodOffer(seg) && HasRoom(t) && Usable(t, drawn);
            && (r.admissionRejected <==> AsksToConnect(t, key, seg) && GoodOffer(seg) && !HasRoom(t))
            && (!accepted ==> t' == t)
            && (r.result.reply.Some? <==> accepted || (!seg.flags.rst && !AsksToConnect(t, key, seg)))
            && (r.result.reply.Some? && !accepted ==> r.result.reply.value == ClosedPortReset(seg))
            && (accepted ==>
                  && t'.connections.Keys == t.connections.Keys + {key} && t'.lastIsn == drawn
                  && (forall k | k in t.connections :: t'.connections[k] == t.connections[k])
                  && t'.connections[key].state == SynReceived && t'.connections[key].localIsn == drawn.value
                  && t'.connections[key].remoteIsn == seg.seqno && r.result.reply.value.flags == Sending.SYN_ACK
                  && r.result.reply.value.seqno == drawn.value && r.result.reply.value.ackno == At(seg.seqno, 1))
  {
    hide BuildSynAckOptions, AdvertisedWindow, ParseOptions, Negotiate, InitialCwnd, At;
  }

  /** A reset goes back where the segment came from, and stands where its sender will believe it. */
  lemma ResetStands(seg: Segment)
    ensures var r := ClosedPortReset(seg);
            && r.flags.rst && !r.flags.syn && !r.flags.fin && r.payload == [] && r.options == [] && r.window == 0
            && r.sourcePort == seg.destinationPort && r.destinationPort == seg.sourcePort
            && (seg.flags.ack ==> r.seqno == seg.ackno && !r.flags.ack)
            && (!seg.flags.ack ==> r.flags.ack && r.ackno == At(seg.seqno, CallSteps.Consumed(seg)))
  {
  }

  lemma StoreOther(m: map<Key, Conn>, key: Key, c: Conn)
    ensures forall k | k in m && k != key :: k in Store(m, key, c) && Store(m, key, c)[k] == m[k]
    ensures !c.removal ==> Store(m, key, c) == m[key := c]
  {
  }

  function ProbeSome(m: map<Key, Conn>, done: set<Key>, now: int): (map<Key, Conn>, map<Key, Segment>) {
    (map k | k in m :: if k in done then PollPersist(k, m[k], now).0 else m[k],
     map k | k in m && k in done && PollPersist(k, m[k], now).1.Some? :: PollPersist(k, m[k], now).1.value)
  }

  lemma ProbeNone(m: map<Key, Conn>, now: int)
    ensures ProbeSome(m, {}, now) == (m, map[]) && m.Keys - m.Keys == {}
  {
    hide PollPersist;
    assert ProbeSome(m, {}, now).0 == m && ProbeSome(m, {}, now).1 == map[];
  }

  lemma ProbeEvery(m: map<Key, Conn>, now: int)
    ensures ProbeSome(m, m.Keys, now) == ProbeAll(m, now)
  {
    hide PollPersist;
    assert ProbeSome(m, m.Keys, now).0 == ProbeAll(m, now).0 && ProbeSome(m, m.Keys, now).1 == ProbeAll(m, now).1;
  }

  lemma ProbeOneMore(m: map<Key, Conn>, done: set<Key>, k: Key, now: int)
    requires k in m && k !in done
    ensures var (c, probe) := PollPersist(k, m[k], now);
            var a, b := ProbeSome(m, done, now), ProbeSome(m, done + {k}, now);
            && b.0 == a.0[k := c]
            && b.1 == (if probe.Some? then a.1[k := probe.value] else a.1)
  {
    hide PollPersist;
  }

  /** `PollAll` when only the connections in `done` have had their turn. */
  function PollSome(m: map<Key, Conn>, done: set<Key>, now: int): Polled {
    Polled(
      map k | k in m && (k in done ==> !PollRetransmission(k, m[k], now).0.removal) ::
        if k in done then PollRetransmission(k, m[k], now).0 else m[k],
      map k | k in m && k in done && PollRetransmission(k, m[k], now).1.Resent? ::
        PollRetransmission(k, m[k], now).1.segment,
      set k | k in m && k in done && PollRetransmission(k, m[k], now).1.TimedOut?,
      set k | k in m && k in done && PollRetransmission(k, m[k], now).1.TimeWaitExpired?)
  }

  lemma PollNone(m: map<Key, Conn>, now: int)
    ensures PollSome(m, {}, now) == Polled(m, map[], {}, {}) && m.Keys - m.Keys == {}
  {
    hide PollRetransmission;
  }

  lemma PollEvery(m: map<Key, Conn>, now: int)
    ensures PollSome(m, m.Keys, now) == PollAll(m, now)
  {
    hide PollRetransmission;
  }

  lemma PollOneMore(m: map<Key, Conn>, done: set<Key>, k: Key, now: int)
    requires k in m && k !in done
    ensures var (c, r) := PollRetransmission(k, m[k], now);
            var a, b := PollSome(m, done, now), PollSome(m, done + {k}, now);
            && b.connections == Store(a.connections, k, c)
            && b.retransmissions == (if r.Resent? then a.retransmissions[k := r.segment] else a.retransmissions)
            && b.timedOut == (if r.TimedOut? then a.timedOut + {k} else a.timedOut)
            && b.timeWaitExpired == (if r.TimeWaitExpired? then a.timeWaitExpired + {k} else a.timeWaitExpired)
  {
    hide PollRetransmission;
  }

  // ---------------------------------------------------------------- deadlines

  /** `d` is the earliest of the deadlines of `m`, if it has any. */
  ghost predicate Earliest(m: map<Key, Conn>, d: Option<int>) {
    && (d.Some? ==> exists k | k in m :: RetransmissionDeadline(m[k]) == d)
    && (forall k | k in m && RetransmissionDeadline(m[k]).Some? ::
          d.Some? && d.value <= RetransmissionDeadline(m[k]).value)
  }

  predicate Due(c: Conn, now: int) { RetransmissionDeadline(c).Some? && now >= RetransmissionDeadline(c).value }

  /** A poll changes a connection exactly when its deadline has been reached. */
  lemma PollActsIffDue(key: Key, c: Conn, now: int)
    requires !c.removal
    ensures PollRetransmission(key, c, now).0 == c <==> !Due(c, now)
    ensures PollRetransmission(key, c, now).1 == Idle <==> !Due(c, now)
  {
    hide TimeoutSegment, Collapse, ClearScoreboard;
    if Due(c, now) && c.state != TimeWait && c.snd.pending[0].timeouts < MAX_RETRANSMITS {
      var c' := ResendOldest(key, c, now).0;
      OldestCounted(key, c, now);
    }
  }

  lemma OldestCounted(key: Key, c: Conn, now: int)
    requires c.snd.pending != []
    ensures var c' := ResendOldest(key, c, now).0;
            c'.snd.pending != [] && c'.snd.pending[0].timeouts == c.snd.pending[0].timeouts + 1
  {
    hide TimeoutSegment, Collapse;
  }

  /** `pollRetransmissions(now)` acts exactly when `now` has reached `nextRetransmissionDeadline`. */
  lemma PollAllActsIffDue(m: map<Key, Conn>, now: int, d: Option<int>)
    requires Earliest(m, d) && forall k | k in m :: !m[k].removal
    ensures PollAll(m, now) == Polled(m, map[], {}, {}) <==> !(d.Some? && now >= d.value)
  {
    hide PollRetransmission, RetransmissionDeadline;
    forall k | k in m
      ensures (PollRetransmission(k, m[k], now).0 == m[k] <==> !Due(m[k], now))
           && (PollRetransmission(k, m[k], now).1 == Idle <==> !Due(m[k], now))
    {
      PollActsIffDue(k, m[k], now);
    }
    if d.Some? && now >= d.value {
      var k :| k in m && RetransmissionDeadline(m[k]) == d;
      assert Due(m[k], now);
      assert k in PollAll(m, now).connections ==> PollAll(m, now).connections[k] != m[k];
    } else {
      assert forall k | k in m :: !Due(m[k], now);
    }
  }

  // ---------------------------------------------------------------- capacity

  predicate WithinLimits(t: Table) {
    |t.connections| <= t.maxConnections && |HalfOpenKeys(t.connections)| <= t.maxHalfOpen
  }

  /** Adding one connection to a table that is not full. */
  lemma AddKeepsLimits(t: Table, key: Key, c: Conn, lastIsn: Option<u32>)
    requires key !in t.connections && !AtCapacity(t)
    ensures WithinLimits(t.(connections := t.connections[key := c], lastIsn := lastIsn))
  {
    var m := t.connections[key := c];
    assert m.Keys == t.connections.Keys + {key};
    SubsetSize(HalfOpenKeys(m), HalfOpenKeys(t.connections) + {key});
  }

  /** No step makes a connection half open that was not. */
  lemma ShrinkKeepsLimits(t: Table, m: map<Key, Conn>)
    requires WithinLimits(t) && m.Keys <= t.connections.Keys
    requires forall k | k in m && HalfOpen(m[k]) :: HalfOpen(t.connections[k])
    ensures WithinLimits(t.(connections := m))
  {
    SubsetSize(m.Keys, t.connections.Keys);
    SubsetSize(HalfOpenKeys(m), HalfOpenKeys(t.connections));
  }

  lemma OnceOpen(c: Conn, v: View, c': Conn, v': View)
    requires ConnValid(c, v) && ConnValid(c', v') && Extends(v, v') && HalfOpen(c')
    ensures HalfOpen(c)
  {
    hide NoStall, RecoveryValid, Remembers;
  }

  /** Every connection satisfies its invariant against its history. */
  predicate AllValid(m: map<Key, Conn>, views: map<Key, View>) {
    views.Keys == m.Keys && forall k | k in m :: ConnValid(m[k], views[k])
  }

  lemma StoreKeepsValid(t: Table, views: map<Key, View>, key: Key, c: Conn, v: View)
    requires AllValid(t.connections, views) && WithinLimits(t) && key in t.connections
    requires (!c.removal ==> ConnValid(c, v)) && Extends(views[key], v)
    ensures AllValid(Store(t.connections, key, c), if c.removal then views - {key} else views[key := v])
    ensures WithinLimits(t.(connections := Store(t.connections, key, c)))
  {
    hide ConnValid, Extends, WithinLimits;
    if !c.removal && HalfOpen(c) {
      OnceOpen(t.connections[key], views[key], c, v);
    }
    ShrinkKeepsLimits(t, Store(t.connections, key, c));
  }

  lemma ExtendsItself(v: View)
    ensures Extends(v, v)
  {
  }

  // ---------------------------------------------------------------- the table

  /**
   The map holds the connections themselves.  A method works on the connection of its key through
   an object with that connection's fields, and the map gets the fields back.
   */
  class TcpConnectionTable {
    const listenPort: u16
    const maxConnections: nat
    const maxHalfOpen: nat
    var connections: map<Key, Conn>
    var lastIsn: Option<u32>
    ghost var views: map<Key, View>

    constructor (listenPort: u16, maxConnections: nat, maxHalfOpen: nat)
      ensures Valid() && State() == Table(listenPort, maxConnections, maxHalfOpen, map[], None)
    {
      this.listenPort, this.maxConnections, this.maxHalfOpen := listenPort, maxConnections, maxHalfOpen;
      connections := map[];
      lastIsn := None;
      views := map[];
      new;
      assert HalfOpenKeys(map[]) == {};
    }

    function State(): Table
      reads this
    {
      Table(listenPort, maxConnections, maxHalfOpen, connections, lastIsn)
    }

    ghost predicate Valid()
      reads this
    {
      AllValid(connections, views) && WithinLimits(State())
    }

    /** `halfOpenCount`. */
    method HalfOpenCount() returns (count: nat)
      ensures count == |HalfOpenKeys(connections)|
    {
      count := 0;
      var todo := connections.Keys;
      ghost var seen: set<Key> := {};
      while todo != {}
        invariant todo <= connections.Keys && seen == set k | k in HalfOpenKeys(connections) && k !in todo
        invariant count == |seen|
        decreases todo
      {
        var k :| k in todo;
        todo := todo - {k};
        if HalfOpen(connections[k]) {
          count := count + 1;
          seen := seen + {k};
        }
      }
      assert seen == HalfOpenKeys(connections);
    }

    /** `nextIsn`; `drawn` is what the generator returns. */
    method NextIsn(drawn: Option<u32>) returns (isn: Option<u32>)
      modifies `lastIsn
      ensures isn == FreshIsn(old(State()), drawn)
      ensures lastIsn == if isn.Some? then drawn else old(lastIsn)
    {
      if drawn.None? || drawn == lastIsn {
        return None;
      }
      lastIsn := drawn;
      isn := drawn;
    }

    method IsFull() returns (full: bool)
      ensures full == AtCapacity(State())
    {
      var halfOpen := HalfOpenCount();
      full := |connections| >= maxConnections || halfOpen >= maxHalfOpen;
    }

    /** Puts a new connection under its key. */
    method Admit(key: Key, c: Conn, ghost v: View)
      requires key !in connections && ConnValid(c, v)
      requires AllValid(connections, views) && WithinLimits(State().(connections := connections[key := c]))
      modifies `connections, `views
      ensures Valid() && State() == old(State()).(connections := old(connections)[key := c])
    {
      hide ConnValid, WithinLimits;
      connections := connections[key := c];
      views := views[key := v];
    }

    /** Puts the fields of a connection back, or erases the key. */
    method PutBack(key: Key, c: Conn, ghost v: View)
      requires Valid() && key in connections && (!c.removal ==> ConnValid(c, v)) && Extends(views[key], v)
      modifies `connections, `views
      ensures Valid() && State() == old(State()).(connections := Store(old(connections), key, c))
    {
      hide ConnValid, Extends, WithinLimits;
      StoreKeepsValid(State(), views, key, c, v);
      if c.removal {
        connections := connections - {key};
        views := views - {key};
      } else {
        connections := connections[key := c];
        views := views[key := v];
      }
    }

    /** `beginConnect`. */
    method BeginConnect(key: Key, drawn: Option<u32>, now: int) returns (result: Result<Segment, ConnectError>)
      requires Valid()
      modifies this
      ensures Valid() && (State(), result) == Dial(old(State()), key, drawn, now)
    {
      hide ConnValid, WithinLimits, AtCapacity, MakeActiveSyn, NewPending;
      if key.localPort == 0 || key.remotePort == 0 {
        return Err(InvalidPort);
      }
      if key in connections {
        return Err(DuplicateConnection);
      }
      var full := IsFull();
      if full {
        return Err(CapacityExhausted);
      }
      var isn := NextIsn(drawn);
      if isn.None? {
        return Err(RandomnessUnavailable);
      }
      var c := new Connection(NewConn(SynSent, isn.value), OpeningView(isn.value, false, 0));
      c.remoteKnown := false;
      c.snd := c.snd.(una := isn.value, nxt := At(isn.value, 1));
      var syn := MakeActiveSyn(key, c.Value());
      c.snd := c.snd.(pending :=
        [NewPending(isn.value, syn.flags, [], now, c.rtt.rto).(isSyn := true, isActiveSyn := true)]);
      assert c.Value() == Connect(key, isn.value, now).0;
      ConnectValid(key, isn.value, now);
      AddKeepsLimits(old(State()), key, c.Value(), lastIsn);
      Admit(key, c.Value(), c.view);
      result := Ok(syn);
    }

    /** The part of `handle` that creates a connection. */
    method AcceptSyn(key: Key, segment: Segment, options: ParsedOptions, isn: u32, now: int)
      returns (c: Conn, synAck: Segment)
      ensures (c, synAck) == Listen(key, isn, segment, options, now)
    {
      hide MakeSynAck, NewPending, Negotiate, InitialCwnd;
      var o := new Connection(NewConn(SynReceived, isn), OpeningView(isn, true, segment.seqno));
      o.remoteIsn := segment.seqno;
      o.AdoptOptions(options);
      synAck := MakeSynAck(key, o.Value());
      o.snd := o.snd.(pending := [NewPending(isn, synAck.flags, [], now, o.rtt.rto).(isSyn := true)]);
      c := o.Value();
    }

    method HandleUnmatched(key: Key, segment: Segment, drawn: Option<u32>, now: int) returns (arrival: Arrival)
      requires Valid() && key !in connections
      modifies this
      ensures Valid() && (State(), arrival) == ArriveUnmatched(old(State()), key, segment, drawn, now)
    {
      hide ConnValid, WithinLimits, AtCapacity, Listen, ParseOptions, ClosedPortReset;
      if segment.flags.rst {
        return Plain(NOTHING);
      }
      if key.localPort != listenPort || !segment.flags.syn || segment.flags.ack {
        return Plain(Replying(ClosedPortReset(segment)));
      }
      var options := ParseTcpOptions(segment.options);
      if options.Err? || options.value.sackBlocks != [] {
        return Plain(NOTHING);
      }
      var full := IsFull();
      if full {
        return Arrival(NOTHING, true);
      }
      var isn := NextIsn(drawn);
      if isn.None? {
        return Plain(NOTHING);
      }
      var c, synAck := AcceptSyn(key, segment, options.value, isn.value, now);
      ListenValid(key, isn.value, segment, now);
      AddKeepsLimits(old(State()), key, c, lastIsn);
      Admit(key, c, OpeningView(isn.value, true, segment.seqno));
      arrival := Plain(Replying(synAck));
    }

    /** `handle`. */
    method Handle(key: Key, segment: Segment, drawn: Option<u32>, now: int) returns (arrival: Arrival)
      requires Valid() && (key in connections ==> TimelyEvent(connections[key], Deliver(segment)))
      modifies this
      ensures Valid() && (State(), arrival) == Arrive(old(State()), key, segment, drawn, now)
    {
      hide ConnValid, WithinLimits, ArriveUnmatched, TcpEngine.Handle, HandleView, TimelyEvent, Extends, IsGenuine,
           Sent, Store;
      if key !in connections {
        arrival := HandleUnmatched(key, segment, drawn, now);
        return;
      }
      var c := new Connection(connections[key], views[key]);
      var result := c.Handle(key, segment, now);
      PutBack(key, c.Value(), c.view);
      arrival := Plain(result);
    }

    /** `makeOutgoingData`. */
    method MakeOutgoingData(key: Key, payload: seq<u8>, now: int) returns (result: Result<seq<Segment>, SendError>)
      requires Valid()
      modifies this
      ensures Valid() && (State(), result) == SendTo(old(State()), key, payload, now)
    {
      hide ConnValid, WithinLimits, TcpEngine.MakeOutgoingData, SendView, Extends, Store, IsGenuine;
      if payload == [] {
        result := Err(EmptyPayload);
      } else if |payload| > MAX_APPLICATION_SEND {
        result := Err(TooLarge);
      } else if key !in connections {
        result := Err(NotSendable);
      } else {
        SendKeepsValid(key, connections[key], views[key], payload, now);
        var c := new Connection(connections[key], views[key]);
        result := c.MakeOutgoingData(key, payload, now);
        PutBack(key, c.Value(), c.view);
      }
    }

    /** `beginClose`. */
    method BeginClose(key: Key, now: int) returns (result: CloseResult)
      requires Valid()
      modifies this
      ensures Valid() && (State(), result) == CloseAt(old(State()), key, now)
    {
      hide ConnValid, WithinLimits, TcpEngine.BeginClose, CloseView, Extends, Store, IsGenuine;
      if key !in connections {
        return CloseResult(false, None);
      }
      CloseKeepsValid(key, connections[key], views[key], now);
      var c := new Connection(connections[key], views[key]);
      result := c.BeginClose(key, now);
      PutBack(key, c.Value(), c.view);
    }

    /** `pollRetransmissions`. */
    method PollRetransmissions(now: int)
      returns (retransmissions: map<Key, Segment>, timedOut: set<Key>, timeWaitExpired: set<Key>)
      requires Valid()
      modifies this
      ensures Valid() && State() == old(State()).(connections := connections)
      ensures Polled(connections, retransmissions, timedOut, timeWaitExpired) == PollAll(old(connections), now)
    {
      hide ConnValid, WithinLimits, TcpEngine.PollRetransmission, PollView, Extends, Quiet, PollAll;
      retransmissions, timedOut, timeWaitExpired := map[], {}, {};
      var todo := connections.Keys;
      ghost var m := connections;
      PollNone(m, now);
      while todo != {}
        invariant Valid() && todo <= connections.Keys && State() == old(State()).(connections := connections)
        invariant m == old(connections) && todo <= m.Keys && forall k | k in todo :: connections[k] == m[k]
        invariant Polled(connections, retransmissions, timedOut, timeWaitExpired) == PollSome(m, m.Keys - todo, now)
        decreases todo
      {
        var k :| k in todo;
        PollKeepsValid(k, connections[k], views[k], now);
        var c := new Connection(connections[k], views[k]);
        var outcome := c.PollRetransmission(k, now);
        PollOneMore(m, m.Keys - todo, k, now);
        assert m.Keys - todo + {k} == m.Keys - (todo - {k});
        PutBack(k, c.Value(), c.view);
        match outcome {
          case Resent(segment) => retransmissions := retransmissions[k := segment];
          case TimedOut => timedOut := timedOut + {k};
          case TimeWaitExpired => timeWaitExpired := timeWaitExpired + {k};
          case Idle =>
        }
        todo := todo - {k};
      }
      assert m.Keys - {} == m.Keys;
      PollEvery(m, now);
    }

    /** `nextRetransmissionDeadline`. */
    method NextRetransmissionDeadline() returns (earliest: Option<int>)
      ensures Earliest(connections, earliest)
    {
      hide RetransmissionDeadline;
      earliest := None;
      var todo := connections.Keys;
      while todo != {}
        invariant todo <= connections.Keys
        invariant earliest.Some? ==> exists k | k in connections :: RetransmissionDeadline(connections[k]) == earliest
        invariant forall k | k in connections && k !in todo && RetransmissionDeadline(connections[k]).Some? ::
                    earliest.Some? && earliest.value <= RetransmissionDeadline(connections[k]).value
        decreases todo
      {
        var k :| k in todo;
        todo := todo - {k};
        var deadline := RetransmissionDeadline(connections[k]);
        if deadline.Some? && (earliest.None? || deadline.value < earliest.value) {
          earliest := deadline;
        }
      }
    }

    /** `pollPersistProbes`. */
    method PollPersistProbes(now: int) returns (probes: map<Key, Segment>)
      requires Valid()
      modifies this
      ensures Valid() && State() == old(State()).(connections := connections)
      ensures (connections, probes) == ProbeAll(old(connections), now)
    {
      hide ConnValid, WithinLimits, TcpEngine.PollPersist, Extends, Store, ProbeAll;
      probes := map[];
      var todo := connections.Keys;
      ghost var m := connections;
      ProbeNone(m, now);
      while todo != {}
        invariant Valid() && todo <= connections.Keys && State() == old(State()).(connections := connections)
        invariant m == old(connections) && todo <= m.Keys && forall k | k in todo :: connections[k] == m[k]
        invariant (connections, probes) == ProbeSome(m, m.Keys - todo, now)
        decreases todo
      {
        var k :| k in todo;
        PersistKeepsValid(k, connections[k], views[k], now);
        ExtendsItself(views[k]);
        var c := new Connection(connections[k], views[k]);
        var probe := c.PollPersist(k, now);
        ProbeOneMore(m, m.Keys - todo, k, now);
        assert m.Keys - todo + {k} == m.Keys - (todo - {k});
        StoreOther(connections, k, c.Value());
        PutBack(k, c.Value(), c.view);
        if probe.Some? {
          probes := probes[k := probe.value];
        }
        todo := todo - {k};
      }
      assert m.Keys - {} == m.Keys;
      ProbeEvery(m, now);
    }
  }
}
