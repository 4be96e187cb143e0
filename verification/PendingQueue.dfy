/**
 The retransmission queue against unbounded positions.

 Position 0 is the SYN, byte `i` of the accepted stream is at position `1 + i`, and the FIN
 follows the last byte.  `Tiles` says that the queue covers a range of positions exactly, that
 every entry carries the stream slice at its position, and that its marks agree with the
 history in the `Ledger`.
 */
module PendingQueue {
  import opened Primitives
  import opened SequenceSpace
  import opened TcpOptions
  import opened TcpSegments
  import opened TcpTypes
  import opened RttEstimator
  import opened Sending

  /**
   History of the send side: the bytes accepted from the application, the end of the newest
   entry that gave a round-trip sample, the ends of the entries resent by a timeout or a
   recovery, and the positions resent in the current recovery episode.
   */
  datatype Ledger = Ledger(isn: u32, stream: seq<u8>, sampledEnd: nat, resent: set<nat>, episode: set<nat>)

  /** More than the largest flight the send buffer allows, and far less than half the space. */
  const REACH: nat := 262146

  /** The slice of the stream at `pos`, no longer than one segment. */
  predicate Carries(payload: seq<u8>, pos: nat, stream: seq<u8>) {
    |payload| <= TCP_MSS && 1 <= pos && pos - 1 + |payload| <= |stream|
    && payload == stream[pos - 1..pos - 1 + |payload|]
  }

  predicate PlainFlags(f: Flags) { f.ack && !f.syn && !f.fin && !f.rst }

  /** What the entry is. */
  predicate ContentAt(e: Pending, pos: nat, isn: u32, stream: seq<u8>) {
    && e.start == At(isn, pos) && !e.isSyn && !e.isActiveSyn
    && (if e.isFin then e.payload == [] && pos == 1 + |stream| && e.flags == FIN_ACK
        else e.payload != [] && Carries(e.payload, pos, stream) && PlainFlags(e.flags))
  }

  /** Its marks. */
  predicate MarksAt(e: Pending, pos: nat, l: Ledger) {
    var end := pos + e.Length();
    && (end <= l.sampledEnd ==> e.sampled)
    && (end in l.resent ==> e.resent)
    && (pos in l.episode ==> e.recovered)
    && (forall x | pos < x < end :: x !in l.episode)
    && Ranged(e.interval) && e.timeouts <= MAX_RETRANSMITS
  }

  predicate Tiles(pending: seq<Pending>, pos: nat, end: nat, l: Ledger) {
    if pending == [] then pos == end
    else ContentAt(pending[0], pos, l.isn, l.stream) && MarksAt(pending[0], pos, l)
         && Tiles(pending[1..], pos + pending[0].Length(), end, l)
  }

  function PositionOf(pending: seq<Pending>, pos: nat, i: nat): nat
    requires i <= |pending|
  {
    if i == 0 then pos else PositionOf(pending[1..], pos + pending[0].Length(), i - 1)
  }

  // ---------------------------------------------------------------- shape

  lemma TilesCons(e: Pending, rest: seq<Pending>, pos: nat, end: nat, l: Ledger)
    requires ContentAt(e, pos, l.isn, l.stream) && MarksAt(e, pos, l) && Tiles(rest, pos + e.Length(), end, l)
    ensures Tiles([e] + rest, pos, end, l)
  {
    assert ([e] + rest)[1..] == rest;
  }

  lemma {:induction false} TilesOrdered(pending: seq<Pending>, pos: nat, end: nat, l: Ledger)
    requires Tiles(pending, pos, end, l)
    ensures pos <= end && (pending != [] ==> pos < end)
    decreases |pending|
  {
    if pending != [] {
      TilesOrdered(pending[1..], pos + pending[0].Length(), end, l);
    }
  }

  /** Every entry carries exactly the slice of the stream at its position. */
  lemma {:induction false} EntryOf(pending: seq<Pending>, pos: nat, end: nat, l: Ledger, i: nat)
    requires Tiles(pending, pos, end, l) && i < |pending|
    ensures var p := PositionOf(pending, pos, i);
            && pos <= p < p + pending[i].Length() <= end && (i > 0 ==> pos < p)
            && ContentAt(pending[i], p, l.isn, l.stream) && MarksAt(pending[i], p, l)
    decreases |pending|
  {
    if i > 0 {
      EntryOf(pending[1..], pos + pending[0].Length(), end, l, i - 1);
    } else {
      TilesOrdered(pending[1..], pos + pending[0].Length(), end, l);
    }
  }

  /** Same bytes at the same place, with marks that were only added or are free to change. */
  predicate SameEntry(p: Pending, q: Pending) {
    && q.start == p.start && q.isSyn == p.isSyn && q.isActiveSyn == p.isActiveSyn && q.isFin == p.isFin
    && q.flags == p.flags && q.payload == p.payload && q.firstSentAt == p.firstSentAt
    && q.interval == p.interval && q.timeouts == p.timeouts && q.resent == p.resent && q.sampled == p.sampled
  }

  predicate SameEntries(ps: seq<Pending>, qs: seq<Pending>) {
    |ps| == |qs| && (ps != [] ==> SameEntry(ps[0], qs[0]) && SameEntries(ps[1..], qs[1..]))
  }

  /** Entries that differ only in scoreboard marks tile the same range once the episode is over. */
  lemma {:induction false} TilesCleared(ps: seq<Pending>, qs: seq<Pending>, pos: nat, end: nat, l: Ledger)
    requires Tiles(ps, pos, end, l) && SameEntries(ps, qs)
    ensures Tiles(qs, pos, end, l.(episode := {}))
    decreases |ps|
  {
    if ps != [] {
      TilesCleared(ps[1..], qs[1..], pos + ps[0].Length(), end, l);
    }
  }

  lemma {:induction false} ClearRecoveredSame(pending: seq<Pending>)
    ensures SameEntries(pending, ClearRecovered(pending))
    decreases |pending|
  {
    if pending != [] {
      ClearRecoveredSame(pending[1..]);
    }
  }

  lemma {:induction false} ClearScoreboardSame(pending: seq<Pending>)
    ensures SameEntries(pending, ClearScoreboard(pending))
    decreases |pending|
  {
    if pending != [] {
      ClearScoreboardSame(pending[1..]);
    }
  }

  /** Marking entries as SACKed changes nothing else. */
  lemma {:induction false} TilesMarked(pending: seq<Pending>, pos: nat, end: nat, l: Ledger,
                                       ack: u32, nxt: u32, blocks: seq<SackBlock>)
    requires Tiles(pending, pos, end, l)
    ensures Tiles(MarkSacked(pending, ack, nxt, blocks), pos, end, l)
    decreases |pending|
  {
    if pending != [] {
      TilesMarked(pending[1..], pos + pending[0].Length(), end, l, ack, nxt, blocks);
    }
  }

  /** Bytes appended to the stream leave the queue alone while no FIN is queued. */
  lemma {:induction false} TilesGrow(pending: seq<Pending>, pos: nat, end: nat, l: Ledger, more: seq<u8>)
    requires Tiles(pending, pos, end, l) && end <= 1 + |l.stream|
    ensures Tiles(pending, pos, end, l.(stream := l.stream + more))
    decreases |pending|
  {
    if pending != [] {
      TilesOrdered(pending[1..], pos + pending[0].Length(), end, l);
      TilesGrow(pending[1..], pos + pending[0].Length(), end, l, more);
      var n := |pending[0].payload|;
      assert (l.stream + more)[pos - 1..pos - 1 + n] == l.stream[pos - 1..pos - 1 + n];
    }
  }

  lemma {:induction false} TilesAppend(ps: seq<Pending>, qs: seq<Pending>, pos: nat, mid: nat, end: nat, l: Ledger)
    requires Tiles(ps, pos, mid, l) && Tiles(qs, mid, end, l)
    ensures Tiles(ps + qs, pos, end, l)
    decreases |ps|
  {
    if ps == [] {
      assert ps + qs == qs;
    } else {
      assert (ps + qs)[1..] == ps[1..] + qs;
      TilesAppend(ps[1..], qs, pos + ps[0].Length(), mid, end, l);
    }
  }

  /** The application bytes in the queue are those between the two positions. */
  lemma {:induction false} OwnedIsRange(pending: seq<Pending>, pos: nat, end: nat, l: Ledger)
    requires Tiles(pending, pos, end, l) && pos <= 1 + |l.stream|
    ensures OwnedInPending(pending) == Min(end, 1 + |l.stream|) - pos
    decreases |pending|
  {
    if pending != [] {
      TilesOrdered(pending[1..], pos + pending[0].Length(), end, l);
      if pending[0].isFin {
        FinIsLast(pending, pos, end, l);
      } else {
        OwnedIsRange(pending[1..], pos + pending[0].Length(), end, l);
      }
    } else {
    }
  }

  /** No byte and no second FIN is sequenced after the FIN. */
  lemma FinIsLast(pending: seq<Pending>, pos: nat, end: nat, l: Ledger)
    requires Tiles(pending, pos, end, l) && pending != [] && pending[0].isFin
    ensures pending[1..] == [] && end == pos + 1 == 2 + |l.stream|
  {
  }

  // ---------------------------------------------------------------- acknowledgment

  /** The end of the entry a sample is taken from, 0 when there is none. */
  function SampleEnd(pending: seq<Pending>, pos: nat, ack: u32): nat {
    if pending == [] then 0
    else
      var e := pending[0];
      var end := pos + e.Length();
      if SeqLessOrEqual(e.End(), ack) then
        var later := SampleEnd(pending[1..], end, ack);
        if later > 0 then later else if Eligible(e) then end else 0
      else if SeqGreater(ack, e.start) && Eligible(e) then end
      else 0
  }

  /** Where the comparisons of the retirement loop stand for one entry. */
  lemma CompareEntry(e: Pending, pos: nat, a: nat, l: Ledger)
    requires ContentAt(e, pos, l.isn, l.stream) && pos <= a + REACH && a <= pos + REACH
    ensures SeqLessOrEqual(e.End(), At(l.isn, a)) <==> pos + e.Length() <= a
    ensures SeqGreater(At(l.isn, a), e.start) <==> pos < a
    ensures pos <= a ==> Sub(At(l.isn, a), e.start) == a - pos
  {
    AtAt(l.isn, pos, e.Length());
    ComparePositions(l.isn, pos + e.Length(), a);
    ComparePositions(l.isn, a, pos);
    if pos <= a {
      SubOfPositions(l.isn, a, pos);
    }
  }

  /** After an ACK at position `a` the queue tiles exactly what is left, and the byte count is exact. */
  lemma {:induction false} RetireTiles(pending: seq<Pending>, pos: nat, end: nat, l: Ledger, a: nat)
    requires Tiles(pending, pos, end, l) && pos <= a <= end <= pos + REACH
    requires 1 <= pos
    ensures var r := Retire(pending, At(l.isn, a));
            && Tiles(r.pending, a, end, l)
            && r.dataBytes == Min(a, 1 + |l.stream|) - Min(pos, 1 + |l.stream|)
    decreases |pending|
  {
    if pending != [] {
      var e := pending[0];
      var next := pos + e.Length();
      CompareEntry(e, pos, a, l);
      TilesOrdered(pending[1..], next, end, l);
      if next <= a {
        RetireTiles(pending[1..], next, end, l, a);
        if e.isFin {
          FinIsLast(pending, pos, end, l);
        }
      } else if pos < a {
        var cut := e.(start := At(l.isn, a), payload := Drop(e.payload, a - pos), recovered := false);
        CutEntry(e, pos, a, l);
        var rest := [cut] + pending[1..];
        assert rest[1..] == pending[1..];
      }
    }
  }

  lemma CutEntry(e: Pending, pos: nat, a: nat, l: Ledger)
    requires ContentAt(e, pos, l.isn, l.stream) && MarksAt(e, pos, l) && pos < a < pos + e.Length()
    ensures var cut := e.(start := At(l.isn, a), payload := Drop(e.payload, a - pos), recovered := false);
            a + cut.Length() == pos + e.Length() && ContentAt(cut, a, l.isn, l.stream) && MarksAt(cut, a, l)
            && e.IsData() && a <= |l.stream|
  {
    var n := a - pos;
    assert Drop(e.payload, n) == e.payload[n..];
    assert e.payload[n..] == l.stream[a - 1..a - 1 + |e.payload| - n];
  }

  /**
   Karn's rule and the single-sample rule: the sampled entry was never resent, and its end lies
   beyond every end sampled before.
   */
  lemma {:induction false} SampleIsFresh(pending: seq<Pending>, pos: nat, end: nat, l: Ledger, a: nat)
    requires Tiles(pending, pos, end, l) && pos <= a <= end <= pos + REACH
    ensures var r, s := Retire(pending, At(l.isn, a)), SampleEnd(pending, pos, At(l.isn, a));
            && (r.sample.Some? <==> s > 0)
            && (s > 0 ==> pos < s <= end && s > l.sampledEnd && s !in l.resent)
            && (r.keep ==> r.pending != [] && s == a + r.pending[0].Length() > a)
            && (s > a ==> r.keep)
    decreases |pending|
  {
    if pending != [] {
      var e := pending[0];
      var next := pos + e.Length();
      CompareEntry(e, pos, a, l);
      TilesOrdered(pending[1..], next, end, l);
      if next <= a {
        SampleIsFresh(pending[1..], next, end, l, a);
      }
    }
  }

  /** Raising `sampledEnd` to a value at or before the start of the queue affects no entry. */
  lemma {:induction false} TilesSampledBefore(pending: seq<Pending>, pos: nat, end: nat, l: Ledger, s: nat)
    requires Tiles(pending, pos, end, l) && s <= pos
    ensures Tiles(pending, pos, end, l.(sampledEnd := s))
    decreases |pending|
  {
    if pending != [] {
      TilesSampledBefore(pending[1..], pos + pending[0].Length(), end, l, s);
    }
  }

  /** Recording the sample: the trimmed front entry, if it gave it, is marked. */
  lemma TilesSampled(pending: seq<Pending>, pos: nat, end: nat, l: Ledger, keep: bool, s: nat)
    requires Tiles(pending, pos, end, l) && (keep ==> pending != [] && s == pos + pending[0].Length())
    requires !keep ==> s <= pos
    ensures var marked := if keep then pending[0 := pending[0].(sampled := true)] else pending;
            Tiles(marked, pos, end, l.(sampledEnd := s))
  {
    if keep {
      var marked := pending[0 := pending[0].(sampled := true)];
      assert marked[1..] == pending[1..];
      TilesSampledBefore(pending[1..], s, end, l, s);
    } else {
      TilesSampledBefore(pending, pos, end, l, s);
    }
  }

  // ---------------------------------------------------------------- resending

  /** Adding an end at or before the start of the queue to `resent` affects no entry. */
  lemma {:induction false} TilesResentBefore(pending: seq<Pending>, pos: nat, end: nat, l: Ledger, s: nat)
    requires Tiles(pending, pos, end, l) && s <= pos
    ensures Tiles(pending, pos, end, l.(resent := l.resent + {s}))
    decreases |pending|
  {
    if pending != [] {
      TilesResentBefore(pending[1..], pos + pending[0].Length(), end, l, s);
    }
  }

  /** Adding a position before the queue to the episode affects no entry. */
  lemma {:induction false} TilesEpisodeBefore(pending: seq<Pending>, pos: nat, end: nat, l: Ledger, p: nat)
    requires Tiles(pending, pos, end, l) && p < pos
    ensures Tiles(pending, pos, end, l.(episode := l.episode + {p}))
    decreases |pending|
  {
    if pending != [] {
      TilesEpisodeBefore(pending[1..], pos + pending[0].Length(), end, l, p);
    }
  }

  function Recovered(e: Pending, now: int): Pending { e.(resent := true, recovered := true, lastSentAt := now) }

  /** The history after a resend at position `p` of an entry that ends at `end`. */
  function ResentAt(l: Ledger, p: nat, end: nat): Ledger {
    l.(resent := l.resent + {end}, episode := l.episode + {p})
  }

  lemma MarksOfOther(e: Pending, pos: nat, l: Ledger, p: nat, end: nat)
    requires MarksAt(e, pos, l) && pos + e.Length() <= p < end && 0 < e.Length()
    ensures MarksAt(e, pos, ResentAt(l, p, end))
  {
  }

  lemma RecoveredHead(pending: seq<Pending>, pos: nat, end: nat, l: Ledger, now: int)
    requires Tiles(pending, pos, end, l) && pending != []
    ensures Tiles(pending[0 := Recovered(pending[0], now)], pos, end, ResentAt(l, pos, pos + pending[0].Length()))
  {
    var next := pos + pending[0].Length();
    assert pending[0 := Recovered(pending[0], now)][1..] == pending[1..];
    TilesResentBefore(pending[1..], next, end, l, next);
    TilesEpisodeBefore(pending[1..], next, end, l.(resent := l.resent + {next}), pos);
  }

  /** A recovery resend of entry `i`, recorded in the ledger. */
  lemma {:induction false} TilesRecovered(pending: seq<Pending>, pos: nat, end: nat, l: Ledger, i: nat, now: int)
    requires Tiles(pending, pos, end, l) && i < |pending|
    ensures var p := PositionOf(pending, pos, i);
            Tiles(pending[i := Recovered(pending[i], now)], pos, end, ResentAt(l, p, p + pending[i].Length()))
    decreases |pending|
  {
    hide MarksAt, ContentAt, Recovered, Pending.Length;
    if i == 0 {
      RecoveredHead(pending, pos, end, l, now);
    } else {
      var rest, next := pending[1..], pos + pending[0].Length();
      var p := PositionOf(pending, pos, i);
      EntryOf(pending, pos, end, l, 0);
      EntryOf(rest, next, end, l, i - 1);
      MarksOfOther(pending[0], pos, l, p, p + pending[i].Length());
      TilesRecovered(rest, next, end, l, i - 1, now);
      var out := rest[i - 1 := Recovered(rest[i - 1], now)];
      TilesCons(pending[0], out, pos, end, ResentAt(l, p, p + pending[i].Length()));
      assert pending[i := Recovered(pending[i], now)] == [pending[0]] + out;
    }
  }

  /** A timeout resend of the oldest entry, recorded in the ledger. */
  lemma TilesExpired(pending: seq<Pending>, pos: nat, end: nat, l: Ledger, e: Pending)
    requires Tiles(pending, pos, end, l) && pending != []
    requires ContentAt(e, pos, l.isn, l.stream) && e.Length() == pending[0].Length()
    requires MarksAt(e, pos, l) && e.resent
    ensures Tiles(pending[0 := e], pos, end, l.(resent := l.resent + {pos + e.Length()}))
  {
    assert pending[0 := e][1..] == pending[1..];
    TilesResentBefore(pending[1..], pos + e.Length(), end, l, pos + e.Length());
  }
}
