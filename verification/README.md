# Verified model of wirestack

wirestack is a userspace TCP/IP stack. This project models its TCP connection engine, its wire
codecs and its bounded side machines in Dafny, and proves what they promise.

## What is modelled

**The TCP endpoint** (`src/tcp_connection.cpp`). A connection is a deterministic step machine with an
explicit clock: arriving segments, application writes, close, and the two timer polls are its only
steps. `TcpEngine`, `Sending` and `Receiving` give every step as a function on the connection's
value; `Connection.dfy` and `ConnectionTable.dfy` run the same steps as the source does, on objects
whose fields are updated in place, with its loops, and are proved to compute those functions. Fields
that belong together (send side, receive side, options, estimator, congestion state) are one record
each. Times are integers in nanoseconds, and initial sequence numbers are parameters.

**Histories.** A `View` is the unbounded history of a connection: the bytes accepted from the
application, the bytes delivered to it, and the positions of the sequence variables. Position 0 is
the SYN, byte `i` is at position `1 + i`, the FIN follows the last byte, and the number on the wire is
the position plus the initial number modulo 2^32. `ConnValid` is the invariant that ties a connection
to its history: the retransmission queue tiles `[snd_una, snd_nxt)` with the right stream slices, what
is acknowledged, pending and unsent is together everything ever accepted, the receive buffer is
canonical and within capacity, the congestion and timeout values are in range, and the state is the
one the two FINs determine. It is kept against any peer: the only thing asked of an arriving segment
is that it is near enough for the window test to be exact.

**Two endpoints.** `TwoEndpoints` joins two connections through networks that may lose, duplicate and
reorder any segment ever sent, as long as none is older than half the sequence space less one receive
buffer. `ReliableStreams` is the service that results. `SackAgreement` adds that the scoreboards tell the
truth about the other end, and `Progress` that a resend which gets through moves the sender forward.

**Codecs and side machines.** The Internet checksum, TCP segments and options, UDP datagrams, DNS names
and messages, the HTTP request and response parsers and the HTTP client's request, and the ARP cache.

## Modules

- `Primitives`, `SequenceSpace`, `BigEndian`, `Checksums`: integers, 32-bit numbers against positions, fields, checksum
- `TcpOptions`, `TcpSegments`, `Udp`: wire formats
- `TcpTypes`, `RttEstimator`, `CongestionControl`, `Receiving`, `Sending`, `TcpEngine`: the step functions
- `Reassembly`, `FragmentLists`, `ReceiveInvariant`: the receive buffer
- `Scoreboard`, `SackReports`: SACK in both directions
- `PendingQueue`, `ConnInvariant`, `AckPhase`, `ReceivePhase`, `SendPhase`, `ConnSteps`, `CallSteps`, `ConnRuns`: the invariant, phase by phase, step by step, run by run
- `RecoveryEpisodes`, `RttSamples`, `CongestionSteps`: what is resent, what is measured, and how the windows move
- `SendLimits`, `SegmentSizes`, `EngineLaws`: how much is sent, in which sizes, and what single events do
- `Delivery`, `TwoEndpoints`, `Agreement`, `Emissions`, `HonestReports`, `SackAgreement`, `Progress`: both ends
- `CloseStates`, `Timers`: the state diagram and the timers
- `Connections`, `ConnectionTables`: the objects
- `DnsNames`, `DnsMessages`, `DnsExchanges`, `HttpText`, `HttpServer`, `HttpClient`, `HttpMessages`, `ArpCaches`: the side machines

## Where the source and its promises differ

- The window acceptance test (`src/tcp_connection.cpp:1059-1066`) compares with signed differences. For a
  segment almost half the space away it can report an overlap that is not there, in two ways. Behind the
  window the copy would begin past the end of the payload (`ReceiveInvariant.FarSegmentIsMisjudged`); the
  model clamps that slice. Ahead of a small scaled window the whole payload is taken and buffered outside the
  window (`ReceiveInvariant.FarAheadIsMisjudged`, `ReceiveInvariant.FarAheadIsBuffered`).
  `ReceiveInvariant.WindowTestExactness` and `ReceiveInvariant.TakenRightly` give the exact condition.
- `docs/tcp.md:447-449` says that a sampled entry was sent exactly once. A SYN-ACK repeated for a repeated
  SYN (`src/tcp_connection.cpp:1430-1442`) is not marked as resent and is measured all the same:
  `RttSamples.RepeatedSynAckIsMeasured`. Timeouts and recovery keep the rule: `RttSamples.RunKarn`.
- Payload is accepted in every state before TIME-WAIT, so a peer that sends on after its FIN has bytes
  delivered after the end of stream: `CloseStates.BytesAfterEnd`, and `CloseStates.DeliveredAfterEnd` for the
  exact condition. A peer that runs this stack never does: `TwoEndpoints.ReliableStreams`.
- A comment in `src/dns.cpp:67-71` says that backward pointers make a loop impossible because every hop
  decreases the cursor. Labels move it forward again: `DnsNames.BackwardPointersCanLoop`. The hop bound is
  what ends the walk.
- A request that ends exactly at the 8192-byte cap of the HTTP buffer is accepted even when more bytes
  follow, since those are dropped unseen: `HttpClient.CapHidesTheRest` for a family of such requests, and
  `HttpServer.CapKeepsVerdict` for the exact condition.
- A received TCP segment is not always re-serialized to its own bytes (`TcpSegments.ReservedBitIsLost`,
  `TcpSegments.OnesAreLost`): `TcpSegments.ParseSerialize` gives the exact condition. A UDP datagram without a
  checksum is not either (`Udp.NotEveryDatagramReturns`): `Udp.ParseSerializeDatagram`.

## Model

| member | source | states |
|---|---|---|
| `SequenceSpace.ComparePositions` | src/tcp_connection.cpp:16-30 | for two positions less than half the number space apart, the signed-difference comparisons, maximum and minimum decide the order of the positions, and equality of numbers is equality of positions |
| `SequenceSpace.SignedSubOfPositions` | src/tcp_connection.cpp:16-22 | the signed 32-bit difference of two numbers is the true distance of their positions |
| `SequenceSpace.HalfSpaceIsTheLimit` | src/tcp_connection.cpp:12-22 | exactly half the space apart the comparisons stop agreeing with the positions |
| `Checksums.SumWords` | src/checksum.cpp:6-18 | the word loop with its odd tail computes the big-endian word sum, modulo 2^32 |
| `Checksums.Fold` | src/checksum.cpp:20-22 | the fold loop reduces modulo 65535, with 0 only for a zero sum |
| `Checksums.InternetChecksum` | src/checksum.cpp:5-25 | the result is the complement of the folded 32-bit sum for every input, and of the exact word sum up to 131074 bytes |
| `Checksums.AccumulatorBound` | src/checksum.cpp:6-18 | 131074 bytes is exactly the longest input for which the 32-bit accumulator cannot overflow, whatever the bytes |
| `Checksums.PatchedVerifies` | src/checksum.cpp:5-25 | writing the checksum (or 0xffff for a computed 0) into a zeroed field makes the whole verify to 0 |
| `Checksums.ComplementIsUnique` | src/checksum.cpp:20-24 | the only field other than 0xffff that makes a non-zero sum verify is the computed checksum |
| `BigEndian.Read16Encode` | src/tcp.cpp:31-46 | reading and then writing a 16-bit field gives back its two bytes |
| `BigEndian.Read32Encode` | src/tcp.cpp:36-53 | reading and then writing a 32-bit field gives back its four bytes |
| `TcpSegments.FlagsEncodeDecode` | src/tcp.cpp:61-85 | decoding inverts encoding of the eight flags |
| `TcpSegments.FlagsDecodeEncode` | src/tcp.cpp:61-85 | encoding inverts decoding for every flag byte |
| `TcpSegments.TcpChecksum` | src/tcp.cpp:89-103 | the buffer built byte by byte is the pseudo-header followed by the segment |
| `TcpSegments.SerializeTcpSegment` | src/tcp.cpp:143-180 | the error cases in order, or the image of the segment with the checksum patched in |
| `TcpSegments.SerializeParse` | src/tcp.cpp:106-180 | every segment that serializes is parsed back unchanged, whatever the addresses |
| `TcpSegments.ParseSerialize` | src/tcp.cpp:106-180 | a received segment re-serializes to its own bytes if and only if the reserved bits are clear and the checksum field is not 0xffff |
| `TcpSegments.ReservedBitIsLost` | src/tcp.cpp:106-180 | a concrete accepted segment with a reserved bit set that does not re-serialize to itself |
| `TcpSegments.OnesAreLost` | src/tcp.cpp:106-180 | a concrete accepted segment with checksum field 0xffff that does not re-serialize to itself |
| `TcpSegments.ImageVerifies` | src/tcp.cpp:143-180 | a serialized segment verifies to 0 |
| `TcpOptions.ReadSackBlocks` | src/tcp.cpp:254-260 | the block loop reads the blocks in order |
| `TcpOptions.ParseTcpOptions` | src/tcp.cpp:193-269 | the option loop with its index computes the recursive reading of the option list, errors included |
| `TcpOptions.ParseInvertsEncode` | src/tcp.cpp:193-269 | parsing any list of well-formed options gives its meaning, option by option, with a repeated option and a zero MSS as the matching errors |
| `TcpOptions.PadToWord` | src/tcp_connection.cpp:434-436 | the padding loop adds zero bytes up to the next four-byte boundary and no further |
| `TcpOptions.SynAckOptionBytes` | src/tcp_connection.cpp:395-417 | the builder produces the option area the model of the SYN-ACK carries |
| `TcpOptions.SackOptionBytes` | src/tcp_connection.cpp:419-438 | the block loop produces the SACK option area |
| `TcpOptions.SackRoundTrip` | src/tcp_connection.cpp:419-438 | for 1 to 4 blocks the built area is aligned, at most 40 bytes, and parses to exactly those blocks |
| `TcpOptions.SynAckRoundTrip` | src/tcp_connection.cpp:395-417 | every SYN-ACK option area is aligned, at most 40 bytes, and parses to exactly the negotiated subset |
| `TcpOptions.ActiveSynRoundTrip` | src/tcp_connection.cpp:455-471 | the active SYN offers MSS, SACK and window scale, and parses to them |
| `TcpOptions.ParsedMssPositive` | src/tcp.cpp:219-230 | a parsed MSS is never zero |
| `CongestionControl.RespondKeepsBounds` | src/tcp_connection.cpp:154-228 | every response keeps SMSS <= cwnd <= 2^30, 2 SMSS <= ssthresh <= 2^30 and accumulator < cwnd, and no 32-bit value overflows on the way |
| `CongestionControl.RunKeepsBounds` | src/tcp_connection.cpp:948-1001 | the bounds hold after any number of growth, recovery entry, duplicate, partial ACK, full ACK and timeout responses in any order |
| `CongestionControl.InitialBounded` | src/tcp_connection.cpp:158-163 | the initial window satisfies the bounds for every SMSS |
| `CongestionControl.GrowAdditive` | src/tcp_connection.cpp:165-186 | in Congestion Avoidance, acknowledging a and then b bytes gives the same state as a + b at once |
| `CongestionControl.AvoidAdditive` | src/tcp_connection.cpp:176-185 | draining the accumulator early changes nothing |
| `CongestionControl.SlowStartAddsOnePerAck` | src/tcp_connection.cpp:170-174 | n ACKs of at least one segment add exactly n segments while the window stays below the threshold (section 3.1 of RFC 5681) |
| `CongestionControl.AvoidanceAddsOnePerWindow` | src/tcp_connection.cpp:175-185 | acknowledging exactly one window adds exactly one segment and leaves the accumulator as it was |
| `CongestionControl.PartialAckAdmitsOne` | src/tcp_connection.cpp:960-973 | a partial ACK of at least one segment admits exactly one new segment, a smaller one none (section 3.2 of RFC 6582) |
| `CongestionControl.RecoveryHalves` | src/tcp_connection.cpp:188-214 | recovery ends at half the flight it began with and a timeout restarts from one segment, with the same threshold |
| `CongestionSteps.OneWindowOneSegment` | src/tcp_connection.cpp:175-185 | at least one and less than two windows of acknowledged data add exactly one segment, less than one adds nothing |
| `CongestionSteps.AdvanceLaws` | src/tcp_connection.cpp:948-985 | an advancing ACK adds min(data, SMSS) in slow start and one segment per window in congestion avoidance, deflates before the recovery point, and ends recovery at the threshold |
| `CongestionSteps.DuplicateLaws` | src/tcp_connection.cpp:948-1001 | an ACK that does not advance is counted, inflates in recovery, or as the third begins recovery at half the flight plus three segments, exactly when it is a duplicate in positions |
| `CongestionSteps.ResendLaw` | src/tcp_connection.cpp:948-1001 | an acknowledgment resends at once if and only if it is a partial ACK, the third duplicate or with SACK a later one, and something before the recovery point is neither SACKed nor resent |
| `CongestionSteps.TimeoutLaws` | src/tcp_connection.cpp:188-203 | a timeout of data restarts from one segment with the threshold at half the flight; the timeout value becomes at least twice the expired interval, up to a minute |
| `CongestionSteps.InitialWindowLaw` | src/tcp_connection.cpp:158-163 | a passive open starts with ten segments |
| `CongestionSteps.ConnectWindowLaw` | src/tcp_connection.cpp:158-163 | an active open starts with ten segments |
| `CongestionSteps.StepCounts` | src/tcp_connection.cpp:948-1001 | every event: the duplicate count is right, and recovery begins exactly on the third |
| `CongestionSteps.RunCounts` | src/tcp_connection.cpp:948-1001 | over every run the counter is the number of duplicates since the last reset |
| `CongestionSteps.EpisodeBegins` | src/tcp_connection.cpp:205-228 | a run enters recovery with an event if and only if that event is the third duplicate in a row |
| `CongestionSteps.AvoidanceRun` | src/tcp_connection.cpp:165-186 | over every run in congestion avoidance each whole window of acknowledged data adds exactly one segment, whatever the sizes of the ACKs |
| `RttEstimator.SampleKeepsValid` | src/tcp_connection.cpp:699-713 | the timeout stays in [1 s, 60 s], SRTT stays between its old value and the sample, and a constant round trip is a fixed point |
| `RttEstimator.Law6298IsExact` | src/tcp_connection.cpp:699-713 | SRTT moves an eighth of the way to the sample, RTTVAR a quarter of the way to the error, and the timeout is four RTTVAR beyond SRTT within [1 s, 60 s]; the first sample sets both; this law and the estimator determine each other |
| `Reassembly.InsertRefinesUnion` | src/tcp_connection.cpp:793-853 | insertion refines the first-arrival-wins byte map: sorted, disjoint, non-touching, bounded; exactly old union new when every gap finds a slot, otherwise between old and that union |
| `Reassembly.InsertRunAt` | src/tcp_connection.cpp:806-833 | the byte at any distance after insertion: an old byte never changes, a new one comes from the segment, the first byte is kept while there is a slot, and without one nothing is stored |
| `Reassembly.SpacedPairs` | src/tcp_connection.cpp:835-852 | of any two buffered fragments the earlier ends at least one byte before the later begins |
| `Reassembly.CutAllMeaning` | src/tcp_connection.cpp:806-822 | the remaining gaps are exactly the new bytes no fragment holds |
| `Reassembly.CoalesceMeaning` | src/tcp_connection.cpp:840-852 | coalescing leaves every byte where it was and leaves no two fragments touching |
| `FragmentLists.CutEvery` | src/tcp_connection.cpp:812-821 | what is left of every gap, in order, once the bytes of one fragment are taken out |
| `FragmentLists.SubtractFragments` | src/tcp_connection.cpp:806-822 | the gap loop over all fragments computes the gaps between them |
| `FragmentLists.AppendPieces` | src/tcp_connection.cpp:824-833 | one fragment is appended per non-empty gap until the cap of 128 is reached |
| `FragmentLists.CoalesceFragments` | src/tcp_connection.cpp:840-852 | the coalescing loop on 32-bit ends and starts computes coalescing on distances |
| `FragmentLists.InsertIntoFragments` | src/tcp_connection.cpp:793-853 | the whole insertion on stored fragments computes the insertion on distances |
| `FragmentLists.ReleaseFragments` | src/tcp_connection.cpp:855-864 | the release loop takes the contiguous fragments from rcv_nxt on |
| `FragmentLists.BufferedReceiveBytes` | src/tcp_connection.cpp:109-118 | the byte count includes a retained FIN |
| `FragmentLists.FindFragment` | src/tcp_connection.cpp:1112-1118 | the search finds the first fragment that holds the byte |
| `ReceiveInvariant.WindowTestExactness` | src/tcp_connection.cpp:1059-1066 | the acceptance test decides the true intersection with the window if and only if the segment is near enough for signed differences to order it against both edges |
| `ReceiveInvariant.FarSegmentIsMisjudged` | src/tcp_connection.cpp:1059-1066 | a concrete one-byte segment almost half the space behind the window that the test takes for one inside it |
| `ReceiveInvariant.FarAheadIsMisjudged` | src/tcp_connection.cpp:1059-1066 | a concrete segment that reaches half the space ahead of a closed window and is taken whole |
| `ReceiveInvariant.TakenRightly` | src/tcp_connection.cpp:1059-1106 | the bytes copied lie inside the payload and inside the window if and only if the segment is in reach; out of reach behind, the copy begins past the payload, and out of reach ahead, the whole payload is taken from outside the window |
| `ReceiveInvariant.FarAheadIsBuffered` | src/tcp_connection.cpp:1059-1106 | with a free slot every segment out of reach ahead is buffered there, so that the buffer leaves the window |
| `ReceiveInvariant.FinTestExact` | src/tcp_connection.cpp:1079-1081 | the FIN test is exact for every sequence number |
| `ReceiveInvariant.AdvertisedWindowMeaning` | src/tcp_connection.cpp:120-136 | without scaling the window is always 65535; with scaling the wire value is never truncated and falls short of the free space by less than four bytes |
| `ReceiveInvariant.AcceptMeaning` | src/tcp_connection.cpp:1100-1106 | accepting a segment adds only usable bytes of it, keeps every buffered byte and keeps the buffer canonical |
| `ReceiveInvariant.ReleaseMeaning` | src/tcp_connection.cpp:855-864 | release hands over exactly the run that starts at rcv_nxt and leaves every other byte at its place |
| `ReceivePhase.AbsorbKeepsValid` | src/tcp_connection.cpp:1099-1122 | buffered bytes and a retained FIN never exceed the receive capacity, and never more than 128 fragments are held |
| `ReceivePhase.AbsorbedBytes` | src/tcp_connection.cpp:1100-1106 | every buffered byte was buffered before or is the byte of the segment at its distance |
| `ReceivePhase.ReceiveKeepsValid` | src/tcp_connection.cpp:1124-1140 | receiving keeps the invariant, rcv_nxt moves by exactly what is handed over, and the end of stream is signalled only if it was not before |
| `ReceivePhase.ConsumeFinState` | src/tcp_connection.cpp:1128-1140 | the peer's FIN follows exactly one of the three edges of section 3.3.2 of RFC 9293 |
| `ReceivePhase.ReceiveProgress` | src/tcp_connection.cpp:1055-1125 | with a free slot and four free bytes, a segment that covers rcv_nxt passes the window test and advances rcv_nxt |
| `ReceivePhase.HandsOverExactly` | src/tcp_connection.cpp:1100-1125 | a segment with payload in the window makes bytes available if and only if the byte at rcv_nxt is buffered already, or the segment brings it and a slot is free |
| `PendingQueue.EntryOf` | src/tcp_connection.cpp:275-332 | every entry of a tiling queue carries exactly the stream slice at its position, with marks that agree with the history |
| `PendingQueue.RetireTiles` | src/tcp_connection.cpp:736-771 | after an ACK the queue tiles exactly what is left, and the byte count is exact without the FIN |
| `PendingQueue.SampleIsFresh` | src/tcp_connection.cpp:726-782 | a sample comes from an entry that was never resent and ends beyond everything sampled before (Karn's rule and one sample per entry) |
| `PendingQueue.TilesRecovered` | src/tcp_connection.cpp:664-684 | a recovery resend leaves the tiling and records the entry as resent |
| `PendingQueue.FinIsLast` | src/tcp_connection.cpp:240-273 | nothing is sequenced after the FIN |
| `PendingQueue.OwnedIsRange` | src/tcp_connection.cpp:230-238 | the bytes charged to the queue are those between the two positions |
| `ConnInvariant.FlightBound` | src/tcp_connection.cpp:230-238 | the send-buffer accounting bounds the flight by 262145, so the half-space assumption is a theorem |
| `ConnInvariant.AdvancingAckExact` | src/tcp_connection.cpp:917-923 | the ACK test accepts as advancing exactly the numbers in (snd_una, snd_nxt] |
| `ConnInvariant.RetireMeaning` | src/tcp_connection.cpp:715-782 | an ACK moves snd_una exactly to its position, counts data bytes without the FIN, and takes a sample only from a fresh entry |
| `ConnInvariant.RetireKeepsValid` | src/tcp_connection.cpp:715-782 | retirement keeps the send side and the estimator valid |
| `AckPhase.SelectIsFullScan` | src/tcp_connection.cpp:647-662 | the selection with its early exit finds the same entry as a full scan |
| `AckPhase.LowestIsResendable` | src/tcp_connection.cpp:647-662 | the entry found is resendable and no lower entry is |
| `AckPhase.RecoveryCases` | src/tcp_connection.cpp:647-684 | the resend in positions: nothing, or exactly the lowest eligible entry, marked and recorded |
| `AckPhase.RecoveryKeepsValid` | src/tcp_connection.cpp:647-684 | a recovery resend carries the stream slice at its position, that position was not resent before in the episode, and the record of the episode only grows |
| `AckPhase.AdvanceKeepsValid` | src/tcp_connection.cpp:948-980 | the three responses to an advancing ACK keep the invariant and the congestion bounds |
| `AckPhase.DuplicateKeepsValid` | src/tcp_connection.cpp:981-1005 | the responses to a duplicate ACK keep the invariant and the congestion bounds |
| `AckPhase.BeginKeepsValid` | src/tcp_connection.cpp:205-228 | entering recovery keeps the invariant and sets the recovery point to snd_nxt |
| `AckPhase.FinAckedIsExact` | src/tcp_connection.cpp:1007-1008 | the test for the acknowledged local FIN is exact, and then nothing is pending |
| `AckPhase.TimeWaitFindsEmptyQueue` | src/tcp_connection.cpp:784-791 | startTimeWait always finds the queue already empty |
| `AckPhase.OnFinAckedKeepsState` | src/tcp_connection.cpp:1007-1016 | the state after the acknowledgment of the local FIN is the one the two FINs determine, by at most one edge |
| `AckPhase.ProcessAckKeepsValid` | src/tcp_connection.cpp:917-1016 | acknowledgment processing keeps the invariant and the receive side; any resend is genuine and new to the episode, and while an episode goes on its point stays and its record only grows |
| `AckPhase.ProcessAckRemembers` | src/tcp_connection.cpp:715-782 | what was sampled and what was resent stays on record |
| `SendPhase.SegmentsCarry` | src/tcp_connection.cpp:293-332 | segmentation loses, repeats and reorders nothing, and no segment exceeds the MSS |
| `SendPhase.ScheduleDataKeepsValid` | src/tcp_connection.cpp:275-337 | a pass moves bytes from the queue into segments and entries that tile their range |
| `SendPhase.FinKeepsValid` | src/tcp_connection.cpp:240-273 | the FIN is sequenced once, after the last byte, and the state follows the peer's FIN |
| `SendPhase.PassLeavesNoStall` | src/tcp_connection.cpp:280-343 | queued bytes with nothing in flight after a pass mean a closed peer window |
| `SendPhase.PassSends` | src/tcp_connection.cpp:275-346 | a pass sends the stream from snd_nxt on without a hole, the FIN last |
| `SendLimits.PassWithinWindows` | src/tcp_connection.cpp:280-290 | a pass takes bytes only as far as both the peer window and cwnd reach, and leaves bytes only when one of them is used up or 128 full segments went out |
| `SendLimits.StepIsLimited` | src/tcp_connection.cpp:275-346 | every event: new data ends within both windows in force and a new FIN within the peer window; after an accepted write or acknowledgment nothing that the windows allow is held back |
| `SendLimits.RunIsLimited` | src/tcp_connection.cpp:275-346 | over every run no event sends new data or a FIN beyond the windows |
| `SegmentSizes.NegotiationLaw` | src/tcp_connection.cpp:1218-1245 | the size is the least of 1460 and the MSS of the peer, or 536 without one; scales up to 14, local scale 2, SACK as offered |
| `SegmentSizes.PassIsCut` | src/tcp_connection.cpp:292-340 | a pass cuts full-sized segments, at most the last one shorter, and PSH stands exactly on the last one of a drained queue |
| `SegmentSizes.StepSized` | src/tcp_connection.cpp:275-346 | every event of a synchronized connection keeps the negotiated options and sends nothing larger than the negotiated size |
| `SegmentSizes.ListenSizes` | src/tcp_connection.cpp:1363-1364 | over every run of a passive open no segment carries more than the MSS of the SYN, or 536 without one |
| `SegmentSizes.ConnectSizes` | src/tcp_connection.cpp:1228-1229 | over every run of an active open no segment carries more than the MSS of the SYN-ACK, or 536 without one, and before it none carries payload |
| `SegmentSizes.ProbeIsOneByte` | src/tcp_connection.cpp:1606-1634 | a probe carries the first waiting byte, changes only the persist timer, and doubles its interval up to a minute |
| `SendPhase.ScheduleKeepsValid` | src/tcp_connection.cpp:275-346 | a scheduling pass restores the whole invariant |
| `SendPhase.PersistKeepsRange` | src/tcp_connection.cpp:356-365 | after an update the persist timer is armed if and only if persistEligible holds |
| `ConnSteps.AfterAckKeepsValid` | src/tcp_connection.cpp:1018-1163 | the payload, FIN and scheduling part of a segment keeps the invariant and transmits only genuine segments |
| `ConnSteps.ArrivalProgress` | src/tcp_connection.cpp:1055-1125 | with a free slot and four free bytes, a segment that covers rcv_nxt always delivers bytes to the application |
| `ConnSteps.HandleSynchronizedKeepsValid` | src/tcp_connection.cpp:866-1163 | any segment from any peer keeps the invariant of a synchronized connection |
| `ConnSteps.HandleSynSentKeepsValid` | src/tcp_connection.cpp:1165-1266 | the active handshake establishes the invariant, or leaves the connection as it was |
| `ConnSteps.HandleSynReceivedKeepsValid` | src/tcp_connection.cpp:1421-1468 | the passive handshake establishes the invariant, or leaves the connection as it was |
| `ConnSteps.HandleTimeWaitKeepsValid` | src/tcp_connection.cpp:1268-1294 | TIME-WAIT keeps the invariant |
| `CallSteps.SendKeepsValid` | src/tcp_connection.cpp:1532-1580 | all of the payload is accepted or none of it; an error changes nothing; capacity and invariant are kept |
| `CallSteps.CloseKeepsValid` | src/tcp_connection.cpp:1582-1604 | closing is accepted exactly in the two sendable states and adds at most one FIN, after every accepted byte |
| `CallSteps.PollKeepsValid` | src/tcp_connection.cpp:1647-1745 | a timeout resends exactly the range at snd_una and its end goes on record as resent, or the history stays as it is; the invariant is kept |
| `CallSteps.ResendKeepsOpening` | src/tcp_connection.cpp:1691-1724 | a resent SYN or SYN-ACK is the segment that was sent first |
| `CallSteps.PersistKeepsValid` | src/tcp_connection.cpp:1606-1634 | a probe is sent exactly when its deadline is reached, one byte at snd_nxt - 1, and sequences nothing |
| `CallSteps.BackOffRanged` | src/tcp_connection.cpp:1729 | doubling keeps every interval in [1 s, 60 s] |
| `ConnRuns.StepKeepsValid` | src/tcp_connection.cpp:1296-1745 | every event keeps the invariant, extends the history, signals the end of stream at most once and sends only genuine segments |
| `ConnRuns.RunKeepsValid` | src/tcp_connection.cpp:1296-1745 | the same for runs of any length against any peer |
| `ConnRuns.ConnectValid` | src/tcp_connection.cpp:510-533 | beginConnect creates a connection that satisfies the invariant |
| `ConnRuns.ListenValid` | src/tcp_connection.cpp:1357-1392 | an accepted SYN creates a connection that satisfies the invariant |
| `ConnRuns.ConnectRun` | src/tcp_connection.cpp:487-534 | from the active open on: the stream is what the application wrote, at most one end of stream, every segment ever sent genuine |
| `ConnRuns.ListenRun` | src/tcp_connection.cpp:1357-1393 | the same from the passive open on |
| `RecoveryEpisodes.StepEpisode` | src/tcp_connection.cpp:917-1016 | every event: an immediate resend is new to a continuing episode and goes on record, and the record is kept until recovery ends |
| `RecoveryEpisodes.EpisodeGoesOn` | src/tcp_connection.cpp:647-684 | the rest of an episode resends only positions before the recovery point that the episode has not resent |
| `RecoveryEpisodes.NothingResentTwice` | src/tcp_connection.cpp:647-684 | over every run within one recovery episode the immediate resends have pairwise different sequence numbers, so only an entry cut by a partial ACK can be resent again |
| `RttSamples.SampledEntry` | src/tcp_connection.cpp:715-782 | the sample is the age of the newest entry the ACK touches that was never resent by a timeout or recovery and not measured before |
| `RttSamples.StepMeasures` | src/tcp_connection.cpp:699-782 | every event: SRTT, RTTVAR and the timeout follow the law of RFC 6298 with the age of an entry never resent by a timeout or recovery, or SRTT and RTTVAR stay |
| `RttSamples.StepKarn` | src/tcp_connection.cpp:715-782 | every event: a measured range was never resent and ends beyond all measured before, and what it resends goes on record |
| `RttSamples.RunKarn` | src/tcp_connection.cpp:715-782 | over every run no range is measured after a timeout or recovery resent it, and the ends of the measured ranges strictly increase |
| `RttSamples.RepeatedSynAckIsMeasured` | src/tcp_connection.cpp:1430-1442 | a SYN-ACK repeated for a repeated SYN is measured by the final ACK if and only if no timeout resent it: the repetition is not counted |
| `Delivery.GenuineIsTimely` | src/tcp_connection.cpp:1059-1066 | a segment of the peer not older than almost half the space is near enough for the window test |
| `Delivery.ProbeIsIgnored` | src/tcp_connection.cpp:1606-1634 | the byte of a persist probe is never inside the receiver's window |
| `Delivery.AckIsExact` | src/tcp_connection.cpp:715-724 | an acknowledgment of the peer moves snd_una exactly to the position it names |
| `Delivery.ReceiveFollows` | src/tcp_connection.cpp:1055-1140 | receiving a segment of the peer extends the delivered prefix of its stream, and the FIN is consumed only behind its last byte |
| `Delivery.ArrivalFollows` | src/tcp_connection.cpp:1296-1468 | the same in every state, handshake included |
| `TwoEndpoints.MoveKeeps` | src/tcp_connection.cpp:1296-1745 | every action at one endpoint keeps the joint invariant of both endpoints and both networks |
| `TwoEndpoints.PlayKeeps` | src/tcp_connection.cpp:1296-1745 | the joint invariant after any number of actions at both endpoints |
| `TwoEndpoints.ReliableStreams` | src/tcp_connection.cpp:793-1163 | over a network that loses, duplicates and reorders, each application reads a prefix of what the other wrote, and sees the end of stream at most once, after all of it |
| `Emissions.StepEmits` | src/tcp_connection.cpp:1017-1163 | whatever a synchronized connection sends goes between its ports, acknowledges all it had received before the event or all it has after it, advertises the window of that moment, and carries SACK blocks only in a pure ACK of its new state |
| `HonestReports.StepKeepsHas` | src/tcp_connection.cpp:793-864 | no event makes an endpoint give up a byte it has delivered or buffered |
| `HonestReports.PureAckIsReading` | src/tcp_connection.cpp:536-594 | a pure ACK stands at snd_nxt, acknowledges rcv_nxt, and every position its blocks name is held |
| `HonestReports.StepIsHonest` | src/tcp_connection.cpp:536-594 | every segment of every event is genuine and reports only what its sender has |
| `HonestReports.FirstBlockIsNewest` | src/tcp_connection.cpp:1107-1118 | the first block of the reply to a segment is the fragment that holds its first usable byte (section 4 of RFC 2018) |
| `SackAgreement.ProcessAckMarked` | src/tcp_connection.cpp:917-1016 | retiring, marking and the congestion response leave marked only entries whose every byte the peer has |
| `SackAgreement.MoveAgrees` | src/tcp_connection.cpp:1296-1745 | every action at one endpoint keeps the agreement of both scoreboards with both receive buffers |
| `SackAgreement.ScoreboardIsTrue` | src/tcp_connection.cpp:596-645 | over a network that loses, duplicates and reorders, every byte of every entry marked as SACKed at one endpoint has been delivered or is held at the other, and every segment ever sent has an honest reading |
| `Progress.ResendIsTaken` | src/tcp_connection.cpp:1647-1745 | the timeout resend may arrive; when it does and the receiver has a free slot and four free bytes, rcv_nxt passes the start of the range, and bytes are handed over or something is sent |
| `Progress.ArrivalIsAnswered` | src/tcp_connection.cpp:1036-1163 | a segment with payload or FIN and an acceptable ACK hands bytes over or is answered |
| `Progress.AnswerNames` | src/tcp_connection.cpp:1017-1163 | an endpoint that has received beyond a position acknowledges beyond it in whatever it sends |
| `Progress.AnswerArrives` | src/tcp_connection.cpp:715-724 | when such a segment arrives, everything up to that position is acknowledged |
| `Progress.RoundTripAdvances` | src/tcp_connection.cpp:715-1163 | once the timeout resend has got through to a receiver with room, any segment the receiver sends from then on moves snd_una forward whenever it arrives, whatever else happens or is lost |
| `CloseStates.StateIsDetermined` | src/tcp_connection.cpp:1007-1016 | between calls the state is a function of the two FINs, the acknowledgment of the local one and their order |
| `CloseStates.StepFollowsDiagram` | src/tcp_connection.cpp:240-273 | every event follows section 3.3.2 of RFC 9293, by at most two edges |
| `CloseStates.DeliveredAfterEnd` | src/tcp_connection.cpp:1059-1125 | after the peer FIN a segment delivers bytes if and only if its ACK is acceptable, it has payload in the window, and it finds or, with a free slot, brings the byte at rcv_nxt |
| `CloseStates.BytesAfterEnd` | src/tcp_connection.cpp:1059-1125 | every connection that signalled the end of stream with an empty buffer still delivers the payload of a segment at rcv_nxt |
| `Timers.SixExpiriesRemove` | src/tcp_connection.cpp:1668-1678 | without input a connection with something in flight is removed exactly by the sixth expiry |
| `Timers.IntervalsDouble` | src/tcp_connection.cpp:1726-1738 | after n expiries the interval has doubled n times, up to 60 s |
| `Timers.NoSilentStall` | src/tcp_connection.cpp:275-365 | queued bytes, and bytes in flight, always have a running timer; the persist timer runs if and only if persistEligible holds |
| `Timers.HandshakeIsRepeated` | src/tcp_connection.cpp:1430-1442 | every SYN, or every SYN-ACK, sent before establishment is the identical segment: first, duplicate-SYN reply and timeout resend |
| `EngineLaws.ConnectLaws` | src/tcp_connection.cpp:1165-1266 | an active open completes if and only if the awaited SYN-ACK arrives; numbers, unscaled window and final ACK |
| `EngineLaws.AcceptLaws` | src/tcp_connection.cpp:1443-1468 | a passive open completes if and only if the final ACK arrives, whose window is scaled |
| `EngineLaws.OpenerLaws` | src/tcp_connection.cpp:440-485 | the SYN and SYN-ACK: ports, numbers, unscaled window 65535, and the options they parse to |
| `EngineLaws.ResetLaws` | src/tcp_connection.cpp:866-915 | a reset removes the connection if and only if it stands at the expected number of its state, and is never answered |
| `EngineLaws.ReplyLaw` | src/tcp_connection.cpp:1036-1163 | an acceptable segment is answered with a pure ACK if and only if SACK blocks are to be reported, or it carried payload or FIN and nothing else goes out or was delivered |
| `EngineLaws.RepeatLaws` | src/tcp_connection.cpp:1268-1294 | repeated SYN, SYN-ACK and FIN are answered if and only if they are the own ones of the connection |
| `EngineLaws.ReportIsMarked` | src/tcp_connection.cpp:596-645 | after an acknowledgment every queued data entry that its report covers is marked |
| `EngineLaws.WriteLaws` | src/tcp_connection.cpp:1532-1580 | a write is accepted if and only if size, state, close request and unacknowledged bytes allow it, and each refusal has its exact reason |
| `EngineLaws.PassAppends` | src/tcp_connection.cpp:275-346 | a pass appends one entry per segment, sent now, due after the current timeout, without marks |
| `EngineLaws.FirstTimer` | src/tcp_connection.cpp:487-534 | the first timer of either open runs for a second |
| `EngineLaws.RecoveryRestartsTimer` | src/tcp_connection.cpp:664-684 | a recovery resend takes an unmarked data entry, restarts its timer and changes no other |
| `EngineLaws.PersistTimer` | src/tcp_connection.cpp:356-365 | the persist timer runs exactly while needed and starts with a second |
| `EngineLaws.PersistNeed` | src/tcp_connection.cpp:348-354 | it is needed if and only if bytes wait, everything sent is acknowledged and the window is closed |
| `EngineLaws.TimeoutDeadlines` | src/tcp_connection.cpp:1690-1740 | after a timeout the oldest entry is due after twice its interval, up to a minute, and the others as before; a timeout of data clears every mark |
| `EngineLaws.TimeWaitLaws` | src/tcp_connection.cpp:784-791 | TIME-WAIT lasts a minute from its entry and from every repeated FIN, and the poll that finds it over removes the connection |
| `Agreement.SynAckCarriesNegotiation` | src/tcp_connection.cpp:1362-1376 | whatever a SYN offers, both sides agree on scaling, SACK and the scale after the SYN-ACK |
| `Agreement.HandshakeAgrees` | src/tcp_connection.cpp:1227-1237 | two endpoints of this stack agree in both directions and use 1460-byte segments |
| `Agreement.WindowIsUnderstood` | src/tcp_connection.cpp:367-381 | with agreed options the sender decodes exactly the window the receiver means |
| `Agreement.NewerWindowWins` | src/tcp_connection.cpp:383-393 | a segment replaces the window exactly when it is at least as new as the last one taken |
| `Agreement.NewestWindowWins` | src/tcp_connection.cpp:383-393 | whatever the order of arrival, the window in force is that of an advertisement no other is newer than |
| `Agreement.RefusalIsAccepted` | src/tcp_connection.cpp:51-76 | the reset a closed port sends for a SYN ends the connection that sent it |
| `Agreement.ResetIsAccepted` | src/tcp_connection.cpp:902-911 | the reset for an acknowledging segment ends the connection exactly when nothing was received since |
| `Scoreboard.PassesExactly` | src/tcp_connection.cpp:603-613 | the three signed tests let through exactly the true blocks and the blocks that wrap half the space beyond snd_nxt |
| `Scoreboard.MergeTrue` | src/tcp_connection.cpp:624-631 | an entry lies in one merged block if and only if each of its bytes lies in some true block |
| `Scoreboard.MergeFar` | src/tcp_connection.cpp:624-631 | wrapped blocks merge only with each other and never contain an entry |
| `Scoreboard.SortOrders` | src/tcp_connection.cpp:622-623 | the wrap-safe comparator sorts by distance from the ACK |
| `Scoreboard.MarksAreExact` | src/tcp_connection.cpp:633-644 | the marking test on the merged list decides the set view |
| `Scoreboard.FilterBlocks` | src/tcp_connection.cpp:602-614 | keeps exactly the reported blocks that pass the three signed tests |
| `Scoreboard.MergeBlocks` | src/tcp_connection.cpp:624-631 | folds every block that overlaps or touches the last one into it, and starts a new one otherwise |
| `Scoreboard.ApplyBlocks` | src/tcp_connection.cpp:596-645 | filter, sort, merge and mark together mark a data entry if and only if each of its bytes is reported by a true block |
| `SackReports.ReportBlocks` | src/tcp_connection.cpp:553-594 | the loops and the descending sort produce the fragment just extended first, then the others from the highest down, at most four |
| `SackReports.BlocksAreFragments` | src/tcp_connection.cpp:553-594 | every block is one of the fragments, at most four, the fragment just extended first |
| `SackReports.ReportedIsHeld` | src/tcp_connection.cpp:553-594 | every reported byte is in the receive buffer |
| `Connections.ClearMarks` | src/tcp_connection.cpp:199-202 | the loop clears both marks of every entry |
| `Connections.ClearRecoveryMarks` | src/tcp_connection.cpp:219-221 | the loop clears the recovery mark of every entry |
| `Connections.Segmentize` | src/tcp_connection.cpp:294-332 | the segmentation loop builds MSS-sized segments and one entry for each |
| `Connections.RetireEntries` | src/tcp_connection.cpp:736-771 | the retirement loop: whole entries, then at most one trimmed entry, and the newest eligible sample |
| `Connections.Connection.ApplyCongestionGrowth` | src/tcp_connection.cpp:165-186 | the loop over whole windows gives exactly the growth whose bounds and additivity are proved above |
| `Connections.Connection.ApplyTimeoutCongestionCollapse` | src/tcp_connection.cpp:188-203 | threshold from the flight, window of one segment, recovery over, and every mark of the queue cleared |
| `Connections.Connection.BeginFastRecovery` | src/tcp_connection.cpp:205-228 | the new episode with fresh marks and the recovery point at snd_nxt, and the resend of the lowest eligible entry |
| `Connections.Connection.AppOwnedBytes` | src/tcp_connection.cpp:230-238 | the loop counts unsent bytes and data entries, not SYN or FIN |
| `Connections.Connection.MaybeSequenceFin` | src/tcp_connection.cpp:240-273 | the FIN and its entry exactly when close was requested, nothing is unsent, the window allows it and none was sequenced |
| `Connections.Connection.ScheduleQueuedData` | src/tcp_connection.cpp:275-346 | segments, entries, queue, snd_nxt, FIN and persist timer after a pass are those of the pass whose invariant is proved above |
| `Connections.Connection.UpdatePersistState` | src/tcp_connection.cpp:356-365 | armed afresh only when it becomes eligible, disarmed when it is not, otherwise left running |
| `Connections.Connection.UpdateSendWindow` | src/tcp_connection.cpp:383-393 | window, WL1 and WL2 are replaced together or not at all |
| `Connections.Connection.SelectRecoveryRetransmission` | src/tcp_connection.cpp:647-662 | the loop with its early exit returns the entry of the selection proved equal to a full scan |
| `Connections.Connection.BuildRecoveryRetransmission` | src/tcp_connection.cpp:664-684 | the segment is the entry's own range, and only that entry is marked |
| `Connections.Connection.RecordRttSample` | src/tcp_connection.cpp:699-713 | RTTVAR is updated from the old SRTT, and the timeout is clamped |
| `Connections.Connection.RetireAcknowledged` | src/tcp_connection.cpp:715-782 | the queue, snd_una, byte counts, sample and the mark of a surviving entry are those of the retirement proved exact above |
| `Connections.Connection.ApplySackBlocks` | src/tcp_connection.cpp:596-645 | after the loops an entry is marked exactly as in the set view |
| `Connections.Connection.StartTimeWait` | src/tcp_connection.cpp:784-791 | state, deadline 60 s ahead, and an empty queue |
| `Connections.Connection.ProcessAcknowledgment` | src/tcp_connection.cpp:917-1016 | retirement, scoreboard, window, congestion response and FIN, in this order, give exactly the step whose invariant is proved above |
| `Connections.Connection.InsertReassemblyFragment` | src/tcp_connection.cpp:793-853 | the stored fragments become those of the insertion that refines the byte map |
| `Connections.Connection.ReleaseContiguous` | src/tcp_connection.cpp:855-864 | hands over the contiguous bytes and moves rcv_nxt by their number |
| `Connections.Connection.ReceivePayload` | src/tcp_connection.cpp:1099-1140 | insertion, retained FIN, release and consumed FIN give exactly the reception whose faithfulness is proved above |
| `Connections.Connection.AfterAcknowledgment` | src/tcp_connection.cpp:1018-1163 | scheduling happens after the receive side is final, and a reply is made exactly in the three cases of the source |
| `Connections.Connection.HandleSynchronized` | src/tcp_connection.cpp:866-1163 | the whole in-place step equals the step function that keeps the invariant |
| `Connections.Connection.CompleteConnect` | src/tcp_connection.cpp:1217-1265 | adopts the options, retires the SYN, takes the unscaled window, and answers with the final ACK |
| `Connections.Connection.HandleSynSent` | src/tcp_connection.cpp:1165-1266 | only a SYN-ACK of the own SYN establishes, only an acknowledging reset refuses, everything else changes nothing |
| `Connections.Connection.HandleTimeWait` | src/tcp_connection.cpp:1268-1294 | a repeated FIN restarts the timer and is acknowledged, an exact reset removes, everything else changes nothing |
| `Connections.Connection.HandleSynReceived` | src/tcp_connection.cpp:1421-1468 | a repeated SYN gets the same SYN-ACK without using up a retry, the exact ACK establishes, an exact reset removes |
| `Connections.Connection.Handle` | src/tcp_connection.cpp:1395-1468 | computes the step of an existing connection and keeps its invariant against its ghost history |
| `Connections.Connection.MakeOutgoingData` | src/tcp_connection.cpp:1532-1580 | the five outcomes in order; on success the whole payload is queued before the pass; the invariant is kept |
| `Connections.Connection.BeginClose` | src/tcp_connection.cpp:1582-1604 | the request is recorded and the FIN sequenced now or later; the invariant is kept |
| `Connections.Connection.PollRetransmission` | src/tcp_connection.cpp:1650-1741 | idle, resend, removal after the budget or the end of TIME-WAIT; the invariant is kept |
| `Connections.Connection.PollPersist` | src/tcp_connection.cpp:1608-1632 | at most one probe, with doubled interval up to 60 s; the invariant is kept |
| `ConnectionTables.TcpConnectionTable.HalfOpenCount` | src/tcp_connection.cpp:89-98 | counts the connections in the two handshake states |
| `ConnectionTables.TcpConnectionTable.NextIsn` | src/tcp_connection.cpp:100-107 | refuses a missing or repeated initial number |
| `ConnectionTables.TcpConnectionTable.BeginConnect` | src/tcp_connection.cpp:487-534 | the four refusals in order, or a new connection and its SYN; both limits and every connection's invariant are kept |
| `ConnectionTables.TcpConnectionTable.Handle` | src/tcp_connection.cpp:1296-1468 | dispatch, admission and erasure; both limits and every connection's invariant are kept |
| `ConnectionTables.TcpConnectionTable.MakeOutgoingData` | src/tcp_connection.cpp:1532-1580 | the send of one key, everything else untouched |
| `ConnectionTables.TcpConnectionTable.BeginClose` | src/tcp_connection.cpp:1582-1604 | the close of one key, everything else untouched |
| `ConnectionTables.TcpConnectionTable.PollRetransmissions` | src/tcp_connection.cpp:1647-1745 | every connection has exactly one turn, and the reports are those of the turns |
| `ConnectionTables.TcpConnectionTable.NextRetransmissionDeadline` | src/tcp_connection.cpp:1747-1762 | the earliest deadline of all connections, if there is one |
| `ConnectionTables.TcpConnectionTable.PollPersistProbes` | src/tcp_connection.cpp:1606-1634 | every connection has exactly one probe turn |
| `ConnectionTables.PollActsIffDue` | src/tcp_connection.cpp:1653-1678 | a poll changes a connection if and only if its deadline has been reached |
| `ConnectionTables.PollAllActsIffDue` | src/tcp_connection.cpp:1647-1762 | pollRetransmissions(now) acts if and only if now has reached nextRetransmissionDeadline |
| `ConnectionTables.DialLaws` | src/tcp_connection.cpp:487-534 | a connection is dialled if and only if ports, key, room and number allow it, and is the only change |
| `ConnectionTables.UnmatchedLaws` | src/tcp_connection.cpp:1296-1400 | a segment without a connection is ignored, reset, refused for room, or opens a connection, each under its exact condition |
| `ConnectionTables.ResetStands` | src/tcp_connection.cpp:51-76 | a reset goes back to the sender and stands where the sender will believe it |
| `ConnectionTables.StoreKeepsValid` | src/tcp_connection.cpp:1397-1419 | no step makes a connection half open again, so both limits hold over every run |
| `Udp.UdpChecksum` | src/udp.cpp:38-51 | the buffer built byte by byte is the pseudo-header followed by the datagram |
| `Udp.SerializeUdpDatagram` | src/udp.cpp:84-110 | the length error, or the layout with the checksum patched in, 0 sent as 0xffff |
| `Udp.SerializeParseDatagram` | src/udp.cpp:55-110 | every datagram that serializes is parsed back, with any padding behind it, and its checksum field is never 0 |
| `Udp.ParseSerializeDatagram` | src/udp.cpp:55-110 | a received datagram re-serializes to its own bytes if and only if it carried a checksum |
| `Udp.NotEveryDatagramReturns` | src/udp.cpp:55-110 | a concrete accepted datagram without a checksum that does not re-serialize to itself |
| `DnsNames.NormalizeHostname` | src/dns.cpp:153-196 | the label loop computes the first error of the labels, or the lower-case name |
| `DnsNames.NormalizedTwice` | src/dns.cpp:153-196 | normalising an accepted name again changes nothing |
| `DnsNames.DecodeName` | src/dns.cpp:43-112 | the loop terminates on every packet by hops left and then bytes left, and yields the joined labels and the length of the field in its own record |
| `DnsNames.DecodedBounds` | src/dns.cpp:43-112 | a decoded name has at most 253 characters, is in lower case, and its field lies inside the packet |
| `DnsNames.BackwardPointersCanLoop` | src/dns.cpp:67-79 | a packet whose only pointer points backwards and whose walk is back at its start after any number of hops, with one more label each time: the hop bound is needed |
| `DnsNames.EncodedRoundTrip` | src/dns.cpp:198-232 | an encoded normalised host name is decoded to itself in the host length + 2 bytes, whatever surrounds it |
| `DnsMessages.SerializeDnsQuery` | src/dns.cpp:198-241 | only an already normalised host name is serialized, as header, labels and question |
| `DnsMessages.QueryFits` | src/dns.cpp:237-239 | the length is the host length + 18, so the size check never fails |
| `DnsMessages.QueryRoundTrip` | src/dns.cpp:198-241 | the question of a query is decoded to its own host name |
| `DnsMessages.DecodeResourceRecord` | src/dns.cpp:125-149 | a record lies inside the packet and the next offset is behind it |
| `DnsMessages.ReadRecords` | src/dns.cpp:313-343 | the two record loops: all records must decode, and the first matching answer counts |
| `DnsMessages.ParseDnsResponse` | src/dns.cpp:243-344 | the verdicts in order, then the records |
| `DnsMessages.ResolvedExactly` | src/dns.cpp:245-343 | a response resolves to an address if and only if the size, QR, opcode, counts, transaction, TC, RCODE, question name, type and class are right, every record decodes, and the address is that of the first matching answer record |
| `DnsMessages.ResolvedIsAddress` | src/dns.cpp:320-327 | a resolved address has exactly four bytes |
| `DnsMessages.AnswerExactly` | src/dns.cpp:313-343 | the record sections give an address if and only if every record decodes and it belongs to the first matching answer record; the other sections never count |
| `DnsExchanges.QueryAsks` | src/dns.cpp:198-241 | a query has one question, for the A record of its host in class IN, no records, and the recursion bit |
| `DnsExchanges.AcceptedNames` | src/dns.cpp:153-196 | a name is accepted if and only if it has at most 253 letters, digits, hyphens and dots, letters or digits around every dot and at the ends, and a dot in any 64 characters |
| `DnsExchanges.RecordRoundTrip` | src/dns.cpp:125-151 | a written record is read back, whatever surrounds it |
| `DnsExchanges.ReplyVerdict` | src/dns.cpp:243-344 | the exact outcome for every response a server can write: wrong transaction or question, truncation, each response code, and the first matching address or none |
| `HttpText.SplitLines` | src/http.cpp:98-117 | the line loop reads the lines up to the first empty one, and rejects a bare CR or LF |
| `HttpText.LinesOfRender` | src/http.cpp:98-117 | reading lines inverts writing them |
| `HttpText.BlankLineOfRender` | src/http.cpp:201-202 | the first blank line is the end of written lines |
| `HttpText.SplitExact` | src/http.cpp:33-54 | the fields, when there are exactly that many and none is empty |
| `HttpServer.ParseHeadLoops` | src/http.cpp:95-194 | the request line and header loops compute the verdict on the head |
| `HttpServer.CheckHeaderLine` | src/http.cpp:142-185 | one header line: token name, printable value, no transfer encoding, at most one Content-Length and only 0 |
| `HttpServer.ErrorsAreFinal` | src/http.cpp:198-244 | an error verdict is unchanged by any further bytes |
| `HttpServer.PrefixesAreIncomplete` | src/http.cpp:198-244 | every proper prefix of a complete request is incomplete |
| `HttpServer.NothingFollows` | src/http.cpp:236-240 | a complete request followed by any byte is malformed |
| `HttpServer.HttpConnectionState.AppendHttpBytes` | src/http.cpp:246-253 | appends what fits under the cap |
| `HttpServer.BufferIsPrefix` | src/http.cpp:246-253 | however the bytes are cut into arrivals, the buffer holds the first 8192 of them |
| `HttpServer.CapKeepsVerdict` | src/http.cpp:198-253 | the cap changes a verdict if and only if the first blank line of the stream ends exactly at the cap, the head before it is good, and more bytes follow |
| `HttpClient.BuildHttpGetRequest` | src/http_client.cpp:334-350 | an invalid target or host is refused, otherwise the three lines and the blank line |
| `HttpClient.BuiltRequestParses` | src/http_client.cpp:334-350 | the server accepts the built request with the same target if and only if line and block are within its limits |
| `HttpClient.CapHidesTheRest` | src/http.cpp:198-253 | for every built request of exactly 8192 bytes and any bytes behind it, the capped buffer is complete while the whole stream is malformed |
| `HttpClient.ParseDigits` | src/http_client.cpp:227-236 | the digit loop gives the exact decimal value, or the overflow flag if and only if it exceeds 64 bits |
| `HttpClient.ParseHttpResponse` | src/http_client.cpp:118-277 | the loops and flags lead to the verdict on the exact Content-Length |
| `HttpClient.ErrorsAreFinal` | src/http_client.cpp:118-277 | an error verdict is unchanged by further bytes and by the close |
| `HttpClient.PrefixesAreIncomplete` | src/http_client.cpp:118-277 | while the peer is open every proper prefix of a complete response is incomplete, also of one completed by the close |
| `HttpClient.HttpClientSession.AppendHttpClientBytes` | src/http_client.cpp:279-290 | all of the bytes or, for good, none |
| `HttpMessages.RequestVerdict` | src/http.cpp:95-244 | the exact verdict on every request with well-formed line and fields: limits, method, version, an announced body, or the request itself |
| `HttpMessages.BuiltFromParts` | src/http_client.cpp:334-352 | the built request is the GET line, the Host field and Connection: close |
| `HttpMessages.ResponseVerdict` | src/http_client.cpp:118-277 | the exact verdict on every response with well-formed status line and fields: limits, repeated or unreadable lengths, transfer encoding, body too long, too short or complete |
| `HttpMessages.CompleteMeans` | src/http_client.cpp:118-277 | the body of a complete response is what follows the first blank line, and its code that of the status line |
| `HttpMessages.ResponseRoundTrip` | src/http_client.cpp:118-277 | every code from 200 to 599 and every body up to 262144 bytes is read back, at once with Content-Length and at the close without |
| `HttpMessages.SerializeHttpResponse` | src/http.cpp:327-350 | the lines of the response and its body |
| `HttpMessages.ReplyIsRead` | src/http.cpp:309-350 | what the server serializes the client reads back with its code and body |
| `ArpCaches.ArpCache.MakeRoom` | src/arp_cache.cpp:8-21 | evicts the oldest entry that is not being resolved, the smaller address of two equally old ones, or fails |
| `ArpCaches.ArpCache.Expire` | src/arp_cache.cpp:23-32 | removes exactly the entries past the lifetime that are not being resolved |
| `ArpCaches.ArpCache.Insert` | src/arp_cache.cpp:34-44 | overwrites or adds, or does nothing when no room can be made |
| `ArpCaches.ArpCache.Lookup` | src/arp_cache.cpp:46-51 | the address of a live resolved entry |
| `ArpCaches.ArpCache.BeginResolution` | src/arp_cache.cpp:53-60 | starts a resolution only for an address without a live entry |
| `ArpCaches.ArpCache.Poll` | src/arp_cache.cpp:62-82 | requests and failures of exactly the due resolutions |
| `ArpCaches.ArpCache.NextDeadline` | src/arp_cache.cpp:84-95 | the earliest time at which an entry changes by itself |
| `ArpCaches.StepKeepsValid` | src/arp_cache.cpp:8-82 | every operation keeps the capacity and the agreement of the entries with the history |
| `ArpCaches.EveryRun` | src/arp_cache.cpp:8-82 | after any calls: within capacity, at most three requests and then one failure per resolution, and a lookup returns only the newest insertion, younger than the lifetime |
| `ArpCaches.ResolutionIsKept` | src/arp_cache.cpp:8-82 | a resolution in progress is touched only by its own insertion or a due poll, never evicted or expired |
| `ArpCaches.PollActsIffDue` | src/arp_cache.cpp:62-95 | poll(now) changes the cache if and only if now has reached nextDeadline |
| `ArpCaches.InsertIsFound` | src/arp_cache.cpp:34-51 | an inserted address is found until its lifetime ends if and only if the cache can hold it; other live entries stay but for one victim of a full cache |
| `ArpCaches.BeginLaws` | src/arp_cache.cpp:53-60 | a resolution starts if and only if no live entry exists and one can be made; its next request is due after a second |
| `ArpCaches.PollLaws` | src/arp_cache.cpp:62-82 | a due resolution sends its second and third request a second apart and then fails; one that is not due is untouched |

## Left out

- Ethernet, ARP packets, IPv4, ICMP and address parsing: fixed layouts that would only add easy members.
- The TAP device, the event loop, command-line options and logging: system calls and plumbing.
- `stateOf`, `snapshotOf` and `nextPersistDeadline`: plain reads of the fields.
- A second incarnation of a connection under the same key, and segments of an older incarnation: each endpoint of `TwoEndpoints` opens once.
- Segments older than half the sequence space less one receive buffer: the two-endpoint theorems do not cover them.
- Liveness of the two endpoints: one round trip of progress is proved (`Progress.RoundTripAdvances`), but not that every byte is delivered in the end under a fair network. The source leaves the ACK of delivered payload to the application's next segment or the next resend.
- Overflow of the 64-bit clock and of the `int` count of duplicate ACKs: both are unbounded integers here.
- The order of the reports of the polls, which is the order of the keys: they are sets and maps here.
- ConnectionTables.TcpConnectionTable.PollRetransmissions: does not state the order of the reports, which is that of the keys.
- ConnectionTables.TcpConnectionTable.PollPersistProbes: does not state the order of the probes, which is that of the keys.
- ArpCaches.ArpCache.Poll: does not state the order of the reports, which is that of the addresses.
- Connections.Connection.Handle: asks of a segment for a synchronized connection that it is near enough for the window test, since beyond that the source copies from past the payload, or buffers bytes outside the window (`ReceiveInvariant.TakenRightly`).
- ConnectionTables.TcpConnectionTable.Handle: asks the same of a segment for a known key.
- The sorts of the standard library: they are insertion sorts here, which give the same result where the keys differ.
- The connections of the table are values of its map, read into an object and written back; references into the map are not modelled.
- The ARP lookup that reports only a state, the DNS client's timers and the choice among the fixed HTTP response bodies: they would only add easy members.
- The system's random initial sequence numbers: the number drawn is a parameter.
