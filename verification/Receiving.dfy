/**
 The receive side: the advertised window, the window test on an arriving segment, insertion
 into the reassembly buffer and release of what became contiguous.
 */
module Receiving {
  import opened Primitives
  import opened SequenceSpace
  import opened Reassembly
  import opened TcpTypes

  function TotalBytes(fs: seq<Fragment>): nat {
    if fs == [] then 0 else |fs[0].payload| + TotalBytes(fs[1..])
  }

  function BufferedBytes(r: RecvState): nat {
    TotalBytes(r.fragments) + (if r.pendingFin.Some? then 1 else 0)
  }

  function Shift(v: nat, scale: nat): nat
    decreases scale
  {
    if scale == 0 then v else Shift(2 * v, scale - 1)
  }

  function Unshift(v: nat, scale: nat): nat
    decreases scale
  {
    if scale == 0 then v else Unshift(v / 2, scale - 1)
  }

  /** The wire value of the window field. */
  function AdvertisedWindow(r: RecvState, opt: Negotiated, applyScale: bool): u16 {
    var buffered := BufferedBytes(r);
    var available := if buffered >= RECEIVE_CAPACITY then 0 else RECEIVE_CAPACITY - buffered;
    Min(if applyScale && opt.scaling then Unshift(available, opt.localScale) else available, 65535)
  }

  /** The window as the peer will decode it. */
  function LogicalWindow(r: RecvState, opt: Negotiated): nat {
    var wire := AdvertisedWindow(r, opt, opt.scaling);
    if opt.scaling then Shift(wire, opt.localScale) else wire
  }

  // ---------------------------------------------------------------- the window test

  datatype Usable = Usable(start: u32, end: u32, any: bool)

  function WindowTest(rcvNxt: u32, window: nat, segStart: u32, len: nat): Usable {
    var start := SeqMax(rcvNxt, segStart);
    var end := SeqMin(At(segStart, len), At(rcvNxt, window));
    Usable(start, end, SeqGreater(end, start))
  }

  predicate FinInWindow(rcvNxt: u32, window: nat, segEnd: u32) {
    SeqLessOrEqual(rcvNxt, segEnd) && SeqGreater(At(rcvNxt, window), segEnd)
  }

  // ---------------------------------------------------------------- the buffer

  function ToRuns(fs: seq<Fragment>, base: u32): seq<Run> {
    if fs == [] then [] else [Run(Sub(fs[0].start, base), fs[0].payload)] + ToRuns(fs[1..], base)
  }

  function FromRuns(rs: seq<Run>, base: u32): seq<Fragment> {
    if rs == [] then [] else [Fragment(At(base, rs[0].off), rs[0].data)] + FromRuns(rs[1..], base)
  }

  function InsertFragment(fs: seq<Fragment>, base: u32, start: u32, payload: seq<u8>): seq<Fragment> {
    FromRuns(InsertRun(ToRuns(fs, base), Sub(start, base), payload), base)
  }

  /** The part of the payload between `u.start` and `u.end`. */
  function UsablePayload(u: Usable, segStart: u32, payload: seq<u8>): seq<u8> {
    Take(Drop(payload, Sub(u.start, segStart)), Sub(u.end, u.start))
  }

  function Accept(r: RecvState, u: Usable, segStart: u32, payload: seq<u8>): RecvState {
    r.(fragments := InsertFragment(r.fragments, r.nxt, u.start, UsablePayload(u, segStart, payload)))
  }

  /** Everything contiguous from `nxt`: the bytes, the new `nxt` and what is left. */
  function Release(nxt: u32, fs: seq<Fragment>): (seq<u8>, u32, seq<Fragment>)
    decreases |fs|
  {
    if fs != [] && fs[0].start == nxt then
      var (bytes, nxt', rest) := Release(At(nxt, |fs[0].payload|), fs[1..]);
      (fs[0].payload + bytes, nxt', rest)
    else ([], nxt, fs)
  }

  /** The fragment that now holds the byte at `start`, for the order of SACK blocks. */
  function MostRecent(fs: seq<Fragment>, start: u32): Option<u32> {
    if fs == [] then None
    else if SeqLessOrEqual(fs[0].start, start) && SeqGreater(fs[0].End(), start) then Some(fs[0].start)
    else MostRecent(fs[1..], start)
  }
}
