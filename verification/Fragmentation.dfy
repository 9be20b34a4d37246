/** The fragmentation report: how far the heap has shrunk below its peak, over exact numbers. */
module Fragmentation {
  import opened Words
  import opened Records
  import opened Stats
  import opened TrackerSpec
  import opened Concurrent
  import opened ConcurrentRuns
  import opened Histogram

  datatype Report = Report(ratio: real, averageFreed: real, active: seq<Bucket>, freed: seq<Bucket>)

  function Ratio(s: Counters): real {
    if s.peak > 0 then 1.0 - s.current as real / s.peak as real else 0.0
  }

  function AverageFreed(s: Counters): real {
    if s.frees > 0 then s.totalFreed as real / s.frees as real else 0.0
  }

  /** The ratio is the missing part of the peak, and the average times the number of frees is all that was freed. */
  lemma RatioAndAverage(s: Counters)
    ensures s.peak == 0 ==> Ratio(s) == 0.0
    ensures s.peak > 0 ==> Ratio(s) * s.peak as real == s.peak as real - s.current as real
    ensures s.frees == 0 ==> AverageFreed(s) == 0.0
    ensures s.frees > 0 ==> AverageFreed(s) * s.frees as real == s.totalFreed as real
  {
    if s.peak > 0 {
      var q := s.current as real / s.peak as real;
      assert q * s.peak as real == s.current as real;
      assert (1.0 - q) * s.peak as real == s.peak as real - q * s.peak as real;
    }
  }

  /** `freed` are the buckets of the sizes freed so far. */
  method Analyze(s: Counters, rs: seq<Record>, freed: seq<Bucket>) returns (r: Report)
    requires forall x :: x in rs ==> x.requested < W64
    ensures r.ratio == Ratio(s) && r.averageFreed == AverageFreed(s) && r.freed == freed
    ensures s.peak == 0 ==> r.ratio == 0.0
    ensures s.peak > 0 ==> r.ratio * s.peak as real == s.peak as real - s.current as real
    ensures s.frees == 0 ==> r.averageFreed == 0.0
    ensures s.frees > 0 ==> r.averageFreed * s.frees as real == s.totalFreed as real
    ensures |r.active| == BUCKETS && forall k :: 0 <= k < BUCKETS ==> r.active[k] == BucketAfter(Sizes(rs), k)
  {
    RatioAndAverage(s);
    var average, ratio := 0.0, 0.0;
    if s.frees > 0 { average := s.totalFreed as real / s.frees as real; }
    if s.peak > 0 { ratio := 1.0 - s.current as real / s.peak as real; }
    var active := new AllocationHistogram();
    active.Feed(rs, []);
    assert [] + Sizes(rs) == Sizes(rs);
    r := Report(ratio, average, active.buckets, freed);
  }

  /** The ratio lies between 0 and 1 exactly when the counters read satisfy `current <= peak`. */
  lemma RatioInRangeIff(s: Counters)
    requires s.peak > 0
    ensures 0.0 <= Ratio(s) <= 1.0 <==> s.current <= s.peak
  {
    var c, p := s.current as real, s.peak as real;
    var q := c / p;
    assert q * p == c;
    if q <= 1.0 { assert (1.0 - q) * p >= 0.0; } else { assert (q - 1.0) * p > 0.0; }
  }

  /** Between calls it always does. */
  lemma QuiescentRatioInRange(g: Setting, run: seq<World>, moves: seq<Move>, k: nat)
    requires IsRun(g, run, moves) && k < |run| && Quiescent(run[k])
    ensures 0.0 <= Ratio(run[k].counters) <= 1.0
  {
    hide IsRun, Quiescent, Flat, SumRequested;
    QuiescentStateIsExact(g, run, moves, k);
    if run[k].counters.peak > 0 { RatioInRangeIff(run[k].counters); }
  }
}
