/** The RFC 6298 estimator in integer arithmetic. */
module RttEstimator {
  import opened Primitives
  import opened TcpTypes

  function Clamp(v: int, lo: int, hi: int): int { if v < lo then lo else if v > hi then hi else v }

  function Abs(v: int): int { if v < 0 then -v else v }

  function RecordSample(r: RttState, sample: int): RttState {
    var rttvar := if r.hasSample then (r.rttvar * 3 + Abs(r.srtt - sample)) / 4 else sample / 2;
    var srtt := if r.hasSample then (r.srtt * 7 + sample) / 8 else sample;
    RttState(true, srtt, rttvar, Clamp(srtt + Max(RTO_GRANULARITY, rttvar * 4), MIN_RTO, MAX_RTO))
  }

  predicate Ranged(interval: int) { MIN_RTO <= interval <= MAX_RTO }

  predicate Valid(r: RttState) { Ranged(r.rto) && 0 <= r.srtt && 0 <= r.rttvar }

  /** The next interval after an expiry. */
  function BackOff(interval: int): int { Min(interval * 2, MAX_RTO) }

  /**
   Samples keep every estimate non-negative and the timeout in [1 s, 60 s]; a constant round trip is
   a fixed point.
   */
  lemma SampleKeepsValid(r: RttState, sample: int)
    requires Valid(r) && 0 <= sample
    ensures Valid(RecordSample(r, sample))
    ensures RecordSample(r, sample).srtt <= Max(r.srtt, sample)
    ensures r.hasSample ==> RecordSample(r, sample).srtt >= Min(r.srtt, sample)
    ensures r.hasSample && r.srtt == sample ==> RecordSample(r, sample).srtt == sample
  {
  }

  /**
   The law of section 2 of RFC 6298 with alpha = 1/8, beta = 1/4, K = 4 and integer division: the
   smoothed time moves an eighth of the way to the sample, its variation a quarter of the way to
   the error, and the timeout lies four variations beyond the smoothed time, within its range.
   */
  predicate Follows6298(r: RttState, sample: int, r': RttState) {
    && r'.hasSample
    && (if r.hasSample then
          && 0 <= 7 * r.srtt + sample - 8 * r'.srtt < 8
          && 0 <= 3 * r.rttvar + Abs(r.srtt - sample) - 4 * r'.rttvar < 4
        else r'.srtt == sample && 0 <= sample - 2 * r'.rttvar < 2)
    && r'.rto >= Min(MAX_RTO, r'.srtt + 4 * r'.rttvar)
    && (r'.rto > MIN_RTO ==> r'.rto <= r'.srtt + Max(RTO_GRANULARITY, 4 * r'.rttvar))
    && (r'.rto < MAX_RTO ==> r'.rto >= r'.srtt + RTO_GRANULARITY)
    && MIN_RTO <= r'.rto <= MAX_RTO
  }

  /** The estimator meets the law, and the law leaves no choice: it determines the new estimate. */
  lemma Law6298IsExact(r: RttState, sample: int, r': RttState)
    requires Valid(r) && 0 <= sample
    ensures Follows6298(r, sample, r') <==> r' == RecordSample(r, sample)
  {
  }
}
