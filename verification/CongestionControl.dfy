/**
 Reno/NewReno congestion control.  Every response of the engine is a function on the
 `Congestion` record; the run lemma at the end covers every order of responses.
 */
module CongestionControl {
  import opened Primitives

  const INITIAL_SSTHRESH: int := 65535
  const MAX_CONGESTION_WINDOW: int := 0x4000_0000
  const INITIAL_WINDOW_FLOOR: int := 14600

  /** `recoveryPoint` is a sequence number, everything else is in bytes. */
  datatype Congestion = Congestion(
    cwnd: nat, ssthresh: nat, duplicateAcks: nat, inRecovery: bool, recoveryPoint: u32, acked: nat)

  function ClampCwnd(value: nat): nat { Min(value, MAX_CONGESTION_WINDOW) }

  function InitialCwnd(smss: nat): nat {
    ClampCwnd(Min(10 * smss, Max(2 * smss, INITIAL_WINDOW_FLOOR)))
  }

  /** Congestion Avoidance: one SMSS for every whole window of bytes in the accumulator. */
  function Avoid(cwnd: nat, acked: nat, smss: nat): (nat, nat)
    decreases acked
  {
    if cwnd > 0 && acked >= cwnd
    then Avoid(ClampCwnd(cwnd + smss), acked - cwnd, smss)
    else (cwnd, acked)
  }

  function Grow(c: Congestion, smss: nat, dataBytes: nat): Congestion {
    if dataBytes == 0 then c
    else if c.cwnd < c.ssthresh then c.(cwnd := ClampCwnd(c.cwnd + Min(dataBytes, smss)))
    else
      var (w, a) := Avoid(c.cwnd, c.acked + dataBytes, smss);
      c.(cwnd := w, acked := a)
  }

  function HalvedFlight(flight: nat, smss: nat): nat { ClampCwnd(Max(flight / 2, 2 * smss)) }

  function Collapse(c: Congestion, smss: nat, flight: nat): Congestion {
    c.(ssthresh := HalvedFlight(flight, smss), cwnd := smss, duplicateAcks := 0,
       inRecovery := false, acked := 0)
  }

  function EnterRecovery(c: Congestion, smss: nat, flight: nat, sndNxt: u32): Congestion {
    c.(ssthresh := HalvedFlight(flight, smss), recoveryPoint := sndNxt,
       cwnd := ClampCwnd(HalvedFlight(flight, smss) + 3 * smss), inRecovery := true, acked := 0)
  }

  function FullAck(c: Congestion): Congestion {
    c.(cwnd := c.ssthresh, inRecovery := false, acked := 0)
  }

  function PartialAck(c: Congestion, smss: nat, ackedSpace: nat): Congestion {
    var kept := Max(if c.cwnd > ackedSpace then c.cwnd - ackedSpace else 0, smss);
    c.(cwnd := ClampCwnd(if ackedSpace >= smss then kept + smss else kept))
  }

  function Inflate(c: Congestion, smss: nat): Congestion {
    c.(cwnd := ClampCwnd(c.cwnd + smss))
  }

  /** What every established run keeps: the windows stay between their floors and 2^30. */
  predicate Bounded(c: Congestion, smss: nat) {
    && 1 <= smss <= 1460
    && smss <= c.cwnd <= MAX_CONGESTION_WINDOW
    && 2 * smss <= c.ssthresh <= MAX_CONGESTION_WINDOW
    && c.acked < c.cwnd
    && (c.inRecovery ==> c.acked == 0)
  }

  lemma {:induction false} AvoidBounded(cwnd: nat, acked: nat, smss: nat)
    requires 1 <= smss <= cwnd <= MAX_CONGESTION_WINDOW
    ensures cwnd <= Avoid(cwnd, acked, smss).0 <= MAX_CONGESTION_WINDOW
    ensures Avoid(cwnd, acked, smss).1 < Avoid(cwnd, acked, smss).0
    decreases acked
  {
    if acked >= cwnd {
      AvoidBounded(ClampCwnd(cwnd + smss), acked - cwnd, smss);
    }
  }

  /** Draining the accumulator early changes nothing: whole windows are only ever counted once. */
  lemma {:induction false} AvoidAdditive(cwnd: nat, acked: nat, more: nat, smss: nat)
    requires 1 <= smss <= cwnd <= MAX_CONGESTION_WINDOW
    ensures var (w, a) := Avoid(cwnd, acked, smss);
            Avoid(w, a + more, smss) == Avoid(cwnd, acked + more, smss)
    decreases acked
  {
    if acked >= cwnd {
      AvoidAdditive(ClampCwnd(cwnd + smss), acked - cwnd, more, smss);
      assert acked - cwnd + more == acked + more - cwnd;
    }
  }

  /** In Congestion Avoidance, acknowledging `a` then `b` bytes equals acknowledging `a + b` at once. */
  lemma GrowAdditive(c: Congestion, smss: nat, a: nat, b: nat)
    requires Bounded(c, smss) && c.cwnd >= c.ssthresh
    ensures Grow(Grow(c, smss, a), smss, b) == Grow(c, smss, a + b)
  {
    AvoidBounded(c.cwnd, c.acked + a, smss);
    AvoidAdditive(c.cwnd, c.acked + a, b, smss);
    assert c.acked + a + b == c.acked + (a + b);
  }

  /** The engine's responses; each carries the bytes or sequence space it was given. */
  datatype Response =
    | Acked(dataBytes: nat)
    | EntersRecovery(flight: nat, sndNxt: u32)
    | Duplicate
    | Partial(space: nat)
    | Full
    | Timeout(expiredFlight: nat)

  function Respond(c: Congestion, smss: nat, r: Response): Congestion {
    match r
    case Acked(n) => if c.inRecovery then c else Grow(c, smss, n)
    case EntersRecovery(f, s) => EnterRecovery(c, smss, f, s)
    case Duplicate => if c.inRecovery then Inflate(c, smss) else c
    case Partial(n) => if c.inRecovery then PartialAck(c, smss, n) else c
    case Full => if c.inRecovery then FullAck(c) else c
    case Timeout(f) => Collapse(c, smss, f)
  }

  function RespondAll(c: Congestion, smss: nat, rs: seq<Response>): Congestion
    decreases |rs|
  {
    if rs == [] then c else RespondAll(Respond(c, smss, rs[0]), smss, rs[1..])
  }

  /** The 32-bit accumulator never overflows: the loop starts below 2^30 plus one send buffer. */
  lemma RespondKeepsBounds(c: Congestion, smss: nat, r: Response)
    requires Bounded(c, smss)
    ensures Bounded(Respond(c, smss, r), smss)
    ensures r.Acked? && r.dataBytes <= 262144 ==> c.acked + r.dataBytes < 0x1_0000_0000
    ensures c.cwnd + 3 * smss < 0x1_0000_0000
  {
    if r.Acked? && c.cwnd >= c.ssthresh {
      AvoidBounded(c.cwnd, c.acked + r.dataBytes, smss);
    }
  }

  /** Every order of responses keeps the bounds. */
  lemma {:induction false} RunKeepsBounds(c: Congestion, smss: nat, rs: seq<Response>)
    requires Bounded(c, smss)
    ensures Bounded(RespondAll(c, smss, rs), smss)
    decreases |rs|
  {
    if rs != [] {
      RespondKeepsBounds(c, smss, rs[0]);
      RunKeepsBounds(Respond(c, smss, rs[0]), smss, rs[1..]);
    }
  }

  lemma InitialBounded(smss: nat, c: Congestion)
    requires 1 <= smss <= 1460
    requires c == Congestion(InitialCwnd(smss), INITIAL_SSTHRESH, 0, false, 0, 0)
    ensures Bounded(c, smss)
  {
  }

  // ---------------------------------------------------------------- the rates of RFC 5681 and RFC 6582

  /** `n` acknowledgments of at least one segment each. */
  function Acks(n: nat, bytes: nat): seq<Response> { if n == 0 then [] else [Acked(bytes)] + Acks(n - 1, bytes) }

  /**
   Slow start: every ACK adds one segment, however much it covers, so one window of full-sized
   segments doubles the window as long as it stays below the threshold.
   */
  lemma {:induction false} SlowStartAddsOnePerAck(c: Congestion, smss: nat, n: nat, bytes: nat)
    requires Bounded(c, smss) && !c.inRecovery && smss <= bytes && c.cwnd + n * smss <= c.ssthresh
    ensures RespondAll(c, smss, Acks(n, bytes)) == c.(cwnd := c.cwnd + n * smss)
    decreases n
  {
    hide Respond, Bounded;
    if n > 0 {
      assert n * smss == smss + (n - 1) * smss;
      assert (n - 1) * smss >= 0;
      var acks := Acks(n, bytes);
      assert acks[1..] == Acks(n - 1, bytes);
      SlowStartAck(c, smss, bytes);
      RespondKeepsBounds(c, smss, acks[0]);
      SlowStartAddsOnePerAck(c.(cwnd := c.cwnd + smss), smss, n - 1, bytes);
    }
  }

  lemma SlowStartAck(c: Congestion, smss: nat, bytes: nat)
    requires Bounded(c, smss) && !c.inRecovery && smss <= bytes && c.cwnd + smss <= c.ssthresh
    ensures Respond(c, smss, Acked(bytes)) == c.(cwnd := c.cwnd + smss)
  {
  }

  /** Congestion avoidance: acknowledging exactly one window adds exactly one segment and leaves the accumulator. */
  lemma AvoidanceAddsOnePerWindow(c: Congestion, smss: nat)
    requires Bounded(c, smss) && c.cwnd >= c.ssthresh && c.cwnd + smss <= MAX_CONGESTION_WINDOW
    ensures Grow(c, smss, c.cwnd) == c.(cwnd := c.cwnd + smss)
  {
    assert Avoid(c.cwnd, c.acked + c.cwnd, smss) == Avoid(c.cwnd + smss, c.acked, smss);
  }

  /** New data the window admits beyond the flight. */
  function Headroom(cwnd: int, flight: int): int { cwnd - flight }

  /** A partial ACK of at least one segment admits exactly one new segment; a smaller one admits none. */
  lemma PartialAckAdmitsOne(c: Congestion, smss: nat, flight: nat, space: nat)
    requires Bounded(c, smss) && c.inRecovery && space <= flight && space + smss <= c.cwnd
    ensures var c' := Respond(c, smss, Partial(space));
            Headroom(c'.cwnd, flight - space) - Headroom(c.cwnd, flight) == if space >= smss then smss else 0
  {
  }

  /** Loss halves: recovery ends at half the flight it began with, but never below two segments. */
  lemma RecoveryHalves(c: Congestion, smss: nat, flight: nat, sndNxt: u32)
    requires Bounded(c, smss)
    ensures var begun := Respond(c, smss, EntersRecovery(flight, sndNxt));
            Respond(begun, smss, Full).cwnd == begun.ssthresh == ClampCwnd(Max(flight / 2, 2 * smss))
    ensures Respond(c, smss, Timeout(flight)).cwnd == smss
            && Respond(c, smss, Timeout(flight)).ssthresh == Respond(c, smss, EntersRecovery(flight, sndNxt)).ssthresh
  {
  }
}
