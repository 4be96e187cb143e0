/**
 What two endpoints agree on: the negotiated options, the meaning of the window field, the newest
 window advertisement, and that a refused connection ends.
 */
module Agreement {
  import opened Primitives
  import opened SequenceSpace
  import opened TcpOptions
  import opened TcpSegments
  import opened TcpTypes
  import opened Receiving
  import opened Sending
  import opened TcpEngine
  import opened ConnInvariant
  import opened ConnSteps

  // ---------------------------------------------------------------- options

  /** The options of the active opener, from the SYN-ACK that answers its SYN. */
  function OpenerSide(listener: Negotiated): Result<ParsedOptions, OptionError> {
    ParseOptions(BuildSynAckOptions(listener.sack, listener.scaling, listener.localScale))
  }

  /** Each side's scale is what the other decodes with, and both agree on scaling and SACK. */
  predicate Agree(a: Negotiated, b: Negotiated) {
    a.scaling == b.scaling && a.sack == b.sack && a.peerScale == b.localScale
  }

  /**
   Whatever a SYN offers, its sender and the listener agree after the SYN-ACK: scaling and SACK are
   on only if the SYN offered them, and the opener decodes with the listener's scale.
   */
  lemma SynAckCarriesNegotiation(offered: ParsedOptions)
    ensures var listener := Negotiate(offered);
            && OpenerSide(listener).Ok? && Agree(Negotiate(OpenerSide(listener).value), listener)
            && (listener.scaling <==> offered.windowScale.Some?) && listener.sack == offered.sackPermitted
  {
    var listener := Negotiate(offered);
    SynAckRoundTrip(listener.sack, listener.scaling, listener.localScale);
  }

  /** Two endpoints of this stack agree in both directions, and both send full-sized segments. */
  lemma HandshakeAgrees()
    ensures ParseOptions(BuildActiveSynOptions()).Ok?
    ensures var listener := Negotiate(ParseOptions(BuildActiveSynOptions()).value);
            && OpenerSide(listener).Ok? && listener.scaling && listener.sack
            && var opener := Negotiate(OpenerSide(listener).value);
               Agree(opener, listener) && Agree(listener, opener) && listener.sendMss == opener.sendMss == TCP_MSS
  {
    ActiveSynRoundTrip();
    var listener := Negotiate(ParseOptions(BuildActiveSynOptions()).value);
    SynAckRoundTrip(listener.sack, listener.scaling, listener.localScale);
  }

  /** With agreed options the sender decodes exactly the window the receiver means. */
  lemma WindowIsUnderstood(sender: Negotiated, receiver: Negotiated, r: RecvState)
    requires Agree(sender, receiver)
    ensures DecodePeerWindow(sender, AdvertisedWindow(r, receiver, receiver.scaling)) == LogicalWindow(r, receiver)
  {
  }

  // ---------------------------------------------------------------- the newest window

  /** A window advertisement: the positions of its segment and of its acknowledgment. */
  datatype Advert = Advert(pos: nat, ackPos: nat, window: nat)

  /** `a` is at least as new as `b`. */
  predicate NewerOrSame(a: Advert, b: Advert) { a.pos > b.pos || (a.pos == b.pos && a.ackPos >= b.ackPos) }

  /** The send state has taken its window from `a`. */
  predicate Took(s: SendState, a: Advert, peerIsn: u32, isn: u32) {
    s.wl1 == At(peerIsn, a.pos) && s.wl2 == At(isn, a.ackPos) && s.wnd == a.window
  }

  predicate Near(a: Advert, b: Advert) { -HALF < a.pos - b.pos < HALF && -HALF < a.ackPos - b.ackPos < HALF }

  predicate Advertises(seg: Segment, opt: Negotiated, b: Advert, peerIsn: u32, isn: u32) {
    seg.seqno == At(peerIsn, b.pos) && seg.ackno == At(isn, b.ackPos) && b.window == DecodePeerWindow(opt, seg.window)
  }

  /** A segment replaces the window exactly when it is at least as new. */
  lemma NewerWindowWins(s: SendState, opt: Negotiated, seg: Segment, a: Advert, b: Advert, peerIsn: u32, isn: u32)
    requires Took(s, a, peerIsn, isn) && Advertises(seg, opt, b, peerIsn, isn) && Near(a, b)
    ensures Took(UpdateSendWindow(s, opt, seg), if NewerOrSame(b, a) then b else a, peerIsn, isn)
  {
    hide At, DecodePeerWindow;
    ComparePositions(peerIsn, b.pos, a.pos);
    ComparePositions(isn, a.ackPos, b.ackPos);
  }

  function UpdateAll(s: SendState, opt: Negotiated, segs: seq<Segment>): SendState
    decreases |segs|
  {
    if segs == [] then s else UpdateAll(UpdateSendWindow(s, opt, segs[0]), opt, segs[1..])
  }

  /**
   Whatever the order of arrival, the window in force at the end belongs to an advertisement that
   no other one is newer than.
   */
  lemma {:induction false} NewestWindowWins(s: SendState, opt: Negotiated, segs: seq<Segment>, a: Advert,
                                            adverts: seq<Advert>,
                                            peerIsn: u32, isn: u32) returns (newest: Advert)
    requires Took(s, a, peerIsn, isn) && |adverts| == |segs|
    requires forall i | 0 <= i < |segs| :: Advertises(segs[i], opt, adverts[i], peerIsn, isn) && Near(a, adverts[i])
    requires forall i, j | 0 <= i < |segs| && 0 <= j < |segs| :: Near(adverts[i], adverts[j])
    ensures Took(UpdateAll(s, opt, segs), newest, peerIsn, isn)
    ensures newest == a || newest in adverts
    ensures NewerOrSame(newest, a) && forall b | b in adverts :: NewerOrSame(newest, b)
    decreases |segs|
  {
    hide Took, UpdateSendWindow, Advertises;
    if segs == [] {
      newest := a;
    } else {
      NewerWindowWins(s, opt, segs[0], a, adverts[0], peerIsn, isn);
      var next := if NewerOrSame(adverts[0], a) then adverts[0] else a;
      newest := NewestWindowWins(UpdateSendWindow(s, opt, segs[0]), opt, segs[1..], next, adverts[1..], peerIsn, isn);
      assert forall b | b in adverts :: b == adverts[0] || b in adverts[1..];
    }
  }

  // ---------------------------------------------------------------- refusal

  /** The reset a closed port sends for a SYN ends the connection that sent it. */
  lemma RefusalIsAccepted(key: Key, c: Conn, v: View, now: int)
    requires SynSentValid(c, v)
    ensures var (c', r) := HandleSynSent(key, c, ClosedPortReset(MakeActiveSyn(key, c)), now);
            c' == c.(removal := true) && r == NOTHING.(reset := true)
  {
    hide BuildActiveSynOptions, AdvertisedWindow, OpeningValid;
    NoOptionsParse();
  }

  lemma NoOptionsParse()
    ensures ParseOptions([]).Ok?
  {
  }

  /** The reset for any acknowledging segment of a synchronized connection ends it, if nothing was received since. */
  lemma ResetIsAccepted(key: Key, c: Conn, seg: Segment, now: int)
    requires c.Synchronized() && c.state != TimeWait && seg.flags.ack
    ensures var (c', r) := HandleSynchronized(key, c, ClosedPortReset(seg), now);
            if seg.ackno == c.rcv.nxt then c' == c.(removal := true) && r == NOTHING.(reset := true)
            else c' == c && r == NOTHING
  {
    NoOptionsParse();
  }
}
