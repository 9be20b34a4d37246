/**
 Which allocations get tracked. Three modes: byte intervals drawn at random, one in N, and a
 percentage. The random generator is a parameter: a stream of intervals of at least 1.
 */
module Sampling {
  import opened Words

  datatype Config = Config(
    samplingRateBytes: nat, sampleEveryN: nat, samplingPercentage: nat,
    enableCanary: bool, canaryFooterSize: nat, alignment: nat, defaultTag: nat,
    maxHeapBytes: nat, hasWatchdog: bool)

  /** A 64-bit word read as a signed number. */
  function Signed(x: nat): int {
    if x < W64 / 2 then x else x - W64
  }

  /** Whether allocation `id` of `size` bytes is tracked, and the countdown afterwards. */
  function Decide(c: Config, id: nat, size: nat, countdown: int, first: int, next: int): (bool, int) {
    if c.samplingRateBytes > 0 then
      var left := if countdown <= 0 then first else countdown;
      if Signed(size) < left then (false, left - Signed(size)) else (true, next)
    else if c.sampleEveryN > 1 then (id % c.sampleEveryN == 0, countdown)
    else if c.samplingPercentage < 100 then (id % 100 < c.samplingPercentage, countdown)
    else (true, countdown)
  }

  // ---------- byte intervals

  ghost predicate ByteMode(c: Config) { c.samplingRateBytes > 0 }

  datatype Sampler = Sampler(countdown: int, drawn: nat)

  /** Where a thread's numbers come from: its k-th interval, and the id its i-th allocation draws. */
  datatype Source = Source(draws: nat -> int, ids: nat -> nat)

  /** One allocation offered for sampling. */
  function Offer(c: Config, from: Source, s: Sampler, id: nat, size: nat): (bool, Sampler) {
    var first := s.countdown <= 0;
    var k := if first then s.drawn + 1 else s.drawn;
    var (sampled, countdown) := Decide(c, id, size, s.countdown, from.draws(s.drawn), from.draws(k));
    (sampled, Sampler(countdown, if sampled then k + 1 else k))
  }

  /** The sampler after allocations of these sizes by one thread, from a fresh thread. */
  function After(c: Config, from: Source, sizes: seq<nat>): Sampler {
    if sizes == [] then Sampler(0, 0) else
    var i := |sizes| - 1;
    Offer(c, from, After(c, from, sizes[..i]), from.ids(i), sizes[i]).1
  }

  function SampledAt(c: Config, from: Source, sizes: seq<nat>, i: nat): bool
    requires i < |sizes|
  {
    Offer(c, from, After(c, from, sizes[..i]), from.ids(i), sizes[i]).0
  }

  // What it should do, said without a countdown.

  /** The bytes since the last draw, and the interval then drawn, before the last of these allocations. */
  ghost predicate Spec(draws: nat -> int, sampled: seq<bool>, sizes: seq<nat>)
    requires |sampled| == |sizes|
  {
    forall i, j :: 0 <= j <= i < |sizes| && SinceDraw(sampled, j, i) ==>
      (sampled[i] <==> TotalOf(sizes[j..i + 1]) >= draws(Count(sampled[..j])))
  }

  /** Allocation `j` is the first after a draw, and nothing in `j..i` was sampled. */
  predicate SinceDraw(sampled: seq<bool>, j: nat, i: nat)
    requires j <= i <= |sampled|
  {
    (j == 0 || sampled[j - 1]) && forall k :: j <= k < i ==> !sampled[k]
  }

  function Count(bs: seq<bool>): nat {
    if bs == [] then 0 else Count(bs[..|bs| - 1]) + if bs[|bs| - 1] then 1 else 0
  }

  lemma TotalExtends(sizes: seq<nat>, j: nat, i: nat)
    requires j <= i < |sizes|
    ensures TotalOf(sizes[j..i + 1]) == TotalOf(sizes[j..i]) + sizes[i]
  {
    assert sizes[j..i + 1][..i - j] == sizes[j..i];
  }

  lemma {:induction false} CountFlat(bs: seq<bool>, j: nat, i: nat)
    requires j <= i <= |bs| && forall k :: j <= k < i ==> !bs[k]
    ensures Count(bs[..i]) == Count(bs[..j])
  {
    if j < i {
      CountFlat(bs, j, i - 1);
      assert bs[..i][..i - 1] == bs[..i - 1];
    }
  }

  /** One allocation: the countdown, or a first draw, against the size. */
  lemma OfferStep(c: Config, from: Source, s: Sampler, id: nat, size: nat)
    requires ByteMode(c) && size < W64 / 2
    ensures var left := if s.countdown <= 0 then from.draws(s.drawn) else s.countdown;
      var k := if s.countdown <= 0 then s.drawn + 1 else s.drawn;
      Offer(c, from, s, id, size) ==
        if size < left then (false, Sampler(left - size, k)) else (true, Sampler(from.draws(k), k + 1))
  {
  }

  /** `sampled` are the decisions made on these sizes. */
  ghost predicate Decisions(c: Config, from: Source, sizes: seq<nat>, sampled: seq<bool>) {
    && ByteMode(c) && (forall k :: from.draws(k) >= 1) && |sampled| == |sizes|
    && forall k :: 0 <= k < |sizes| ==> sizes[k] < W64 / 2 && sampled[k] == SampledAt(c, from, sizes, k)
  }

  lemma AfterStep(c: Config, from: Source, sizes: seq<nat>, sampled: seq<bool>, i: nat)
    requires Decisions(c, from, sizes, sampled) && i < |sizes|
    ensures Offer(c, from, After(c, from, sizes[..i]), from.ids(i), sizes[i])
      == (sampled[i], After(c, from, sizes[..i + 1]))
  {
    hide Offer;
    assert sizes[..i + 1][..i] == sizes[..i];
  }

  /** After the first use the countdown is what remains of the current interval. */
  lemma {:induction false} CountdownIsRest(c: Config, from: Source, sizes: seq<nat>, sampled: seq<bool>,
                                           j: nat, i: nat)
    requires Decisions(c, from, sizes, sampled)
    requires j <= i <= |sizes| && SinceDraw(sampled, j, i)
    ensures var s := After(c, from, sizes[..i]); var k := Count(sampled[..j]);
      if i == 0 then s == Sampler(0, 0)
      else s.countdown > 0 && s.drawn == k + 1 && s.countdown == from.draws(k) - TotalOf(sizes[j..i])
    decreases i
  {
    hide Offer, Decide, After, SampledAt, TotalOf, Count, Decisions;
    if i == 0 {
      FreshThread(c, from, sizes);
    } else {
      var size := Size(c, from, sizes, sampled, i - 1);
      var before := After(c, from, sizes[..i - 1]);
      AfterStep(c, from, sizes, sampled, i - 1);
      OfferStep(c, from, before, from.ids(i - 1), size);
      if j == i {
        var j' := LastStart(sampled, i - 1);
        StartOf(sampled, i - 1);
        CountdownIsRest(c, from, sizes, sampled, j', i - 1);
        CountFlat(sampled, j', i - 1);
        CountStep(sampled, i - 1);
      } else {
        CountdownIsRest(c, from, sizes, sampled, j, i - 1);
        TotalExtends(sizes, j, i - 1);
      }
      EmptySums(sizes, sampled, i);
    }
  }

  lemma FreshThread(c: Config, from: Source, sizes: seq<nat>)
    ensures After(c, from, sizes[..0]) == Sampler(0, 0)
  {
  }

  lemma EmptySums(sizes: seq<nat>, sampled: seq<bool>, i: nat)
    requires i <= |sizes|
    ensures TotalOf(sizes[i..i]) == TotalOf(sizes[0..0]) == 0 && Count(sampled[..0]) == 0
  {
  }

  lemma CountStep(bs: seq<bool>, i: nat)
    requires i < |bs|
    ensures Count(bs[..i + 1]) == Count(bs[..i]) + if bs[i] then 1 else 0
  {
    assert bs[..i + 1][..i] == bs[..i];
  }

  /** A size as the decisions see it: below 2^63, with intervals of at least 1 ahead. */
  lemma Size(c: Config, from: Source, sizes: seq<nat>, sampled: seq<bool>, i: nat) returns (size: nat)
    requires Decisions(c, from, sizes, sampled) && i < |sizes|
    ensures size == sizes[i] < W64 / 2 && ByteMode(c) && |sampled| == |sizes|
    ensures forall k :: from.draws(k) >= 1
  {
    hide SampledAt;
    size := sizes[i];
  }

  /** The start of the interval that allocation `i` falls in. */
  function LastStart(sampled: seq<bool>, i: nat): (j: nat)
    requires i <= |sampled|
    ensures j <= i
  {
    if i == 0 || sampled[i - 1] then i else LastStart(sampled, i - 1)
  }

  lemma {:induction false} StartOf(sampled: seq<bool>, i: nat)
    requires i <= |sampled|
    ensures SinceDraw(sampled, LastStart(sampled, i), i)
  {
    if i != 0 && !sampled[i - 1] { StartOf(sampled, i - 1); }
  }

  /**
   For any stream of intervals of at least 1, any ids and any sizes below 2^63: an allocation is
   sampled iff the bytes since the last draw, its own included, reach the drawn interval.
   */
  lemma ByteSamplingMeetsSpec(c: Config, from: Source, sizes: seq<nat>, sampled: seq<bool>)
    requires Decisions(c, from, sizes, sampled)
    ensures Spec(from.draws, sampled, sizes)
    ensures sizes != [] ==> After(c, from, sizes).countdown > 0
  {
    hide Offer, Decide;
    forall i, j | 0 <= j <= i < |sizes| && SinceDraw(sampled, j, i)
      ensures sampled[i] <==> TotalOf(sizes[j..i + 1]) >= from.draws(Count(sampled[..j]))
    {
      CountdownIsRest(c, from, sizes, sampled, j, i);
      AfterStep(c, from, sizes, sampled, i);
      OfferStep(c, from, After(c, from, sizes[..i]), from.ids(i), sizes[i]);
      TotalExtends(sizes, j, i);
    }
    var n := |sizes|;
    StartOf(sampled, n);
    CountdownIsRest(c, from, sizes, sampled, LastStart(sampled, n), n);
    assert sizes[..n] == sizes;
  }

  // ---------- one in N, and percentages

  /** An allocation as it comes to the sampling decision: its id and size, the countdown and the draws. */
  datatype Asked = Asked(id: nat, size: nat, countdown: int, first: int, next: int)

  predicate Picked(c: Config, a: Asked) {
    Decide(c, a.id, a.size, a.countdown, a.first, a.next).0
  }

  /** The countdown that the decision leaves behind. */
  function Left(c: Config, a: Asked): int {
    Decide(c, a.id, a.size, a.countdown, a.first, a.next).1
  }

  /** Allocations with consecutive ids, of whatever sizes. */
  ghost predicate Consecutive(asked: seq<Asked>) {
    forall i :: 0 <= i < |asked| ==> asked[i].id == asked[0].id + i
  }

  function TrackedOf(c: Config, asked: seq<Asked>): nat {
    if asked == [] then 0
    else TrackedOf(c, asked[..|asked| - 1]) + if Picked(c, asked[|asked| - 1]) then 1 else 0
  }

  /** How many numbers below `n` have a remainder modulo `period` below `chosen`. */
  function ChosenBelow(n: nat, period: nat, chosen: nat): nat
    requires period > 0
  {
    n / period * chosen + if n % period < chosen then n % period else chosen
  }

  lemma ChosenAt(n: nat, period: nat, chosen: nat, q: nat, r: nat)
    requires n == q * period + r && r < period
    ensures n % period == r && ChosenBelow(n, period, chosen) == q * chosen + if r < chosen then r else chosen
  {
    ModuloIs(n, period, q, r);
  }

  lemma ChosenStep(n: nat, period: nat, chosen: nat)
    requires period > 0 && chosen <= period
    ensures ChosenBelow(n + 1, period, chosen) == ChosenBelow(n, period, chosen) + if n % period < chosen then 1 else 0
  {
    var q, r := n / period, n % period;
    ChosenAt(n, period, chosen, q, r);
    if r + 1 < period {
      ChosenAt(n + 1, period, chosen, q, r + 1);
    } else {
      Distribute(q, period);
      Distribute(q, chosen);
      ChosenAt(n + 1, period, chosen, q + 1, 0);
    }
  }

  lemma Distribute(q: nat, m: nat)
    ensures (q + 1) * m == q * m + m
  {
  }

  lemma {:induction false} TrackedIsDifference(c: Config, asked: seq<Asked>, a: nat, period: nat, chosen: nat)
    requires period > 0 && chosen <= period
    requires forall i :: 0 <= i < |asked| ==>
      asked[i].id == a + i && (Picked(c, asked[i]) <==> asked[i].id % period < chosen)
    ensures TrackedOf(c, asked) == ChosenBelow(a + |asked|, period, chosen) - ChosenBelow(a, period, chosen)
  {
    hide Picked, ChosenBelow;
    if asked != [] {
      TrackedIsDifference(c, asked[..|asked| - 1], a, period, chosen);
      ChosenStep(a + |asked| - 1, period, chosen);
    }
  }

  /**
   One-in-N tracking picks the multiples of N, whatever the sizes, and leaves the countdown alone; so it
   picks between floor(n/N) and ceil(n/N) of any `n` allocations with consecutive ids.
   */
  lemma OneInNIsBalanced(c: Config, asked: seq<Asked>)
    requires c.samplingRateBytes == 0 && c.sampleEveryN > 1 && Consecutive(asked)
    ensures forall i :: 0 <= i < |asked| ==>
      (Picked(c, asked[i]) <==> asked[i].id % c.sampleEveryN == 0) && Left(c, asked[i]) == asked[i].countdown
    ensures var n := |asked|;
      n / c.sampleEveryN <= TrackedOf(c, asked) <= (n + c.sampleEveryN - 1) / c.sampleEveryN
  {
    var N, a := c.sampleEveryN, if asked == [] then 0 else asked[0].id;
    TrackedIsDifference(c, asked, a, N, 1);
    QuotientOfSum(a, |asked|, N);
  }

  lemma QuotientOfSum(a: nat, n: nat, m: nat)
    requires m > 1
    ensures n / m <= ChosenBelow(a + n, m, 1) - ChosenBelow(a, m, 1) <= (n + m - 1) / m
  {
    hide ChosenBelow;
    Regroup(a, n, m);
    ChosenAt(a, m, 1, a / m, a % m);
    TwoParts(a + n, m, a / m + n / m, a % m + n % m);
    CeilingIs(n, m);
  }

  lemma TwoParts(x: nat, m: nat, q: nat, r: nat)
    requires m > 1 && x == q * m + r && r < 2 * m - 1
    ensures ChosenBelow(x, m, 1) == q + if r == 0 then 0 else if r <= m then 1 else 2
  {
    if r < m {
      ChosenAt(x, m, 1, q, r);
    } else {
      Distribute(q, m);
      ChosenAt(x, m, 1, q + 1, r - m);
    }
  }

  lemma Regroup(a: nat, n: nat, m: nat)
    requires m > 0
    ensures a + n == (a / m + n / m) * m + (a % m + n % m)
  {
    assert (a / m + n / m) * m == a / m * m + n / m * m;
  }

  lemma CeilingIs(n: nat, m: nat)
    requires m > 0
    ensures (n + m - 1) / m == n / m + if n % m == 0 then 0 else 1
  {
    var q, r := n / m, n % m;
    Distribute(q, m);
    if r == 0 {
      ModuloIs(n + m - 1, m, q, m - 1);
    } else {
      ModuloIs(n + m - 1, m, q + 1, r - 1);
    }
  }

  /**
   Percentage tracking picks the ids whose last two digits are below the percentage, whatever the sizes,
   and leaves the countdown alone; so it picks exactly that many of any 100 consecutive ids.
   */
  lemma PercentageIsExact(c: Config, asked: seq<Asked>)
    requires c.samplingRateBytes == 0 && c.sampleEveryN <= 1 && Consecutive(asked)
    ensures forall i :: 0 <= i < |asked| ==>
      (Picked(c, asked[i]) <==> asked[i].id % 100 < c.samplingPercentage) && Left(c, asked[i]) == asked[i].countdown
    ensures |asked| == 100 ==> TrackedOf(c, asked) == if c.samplingPercentage < 100 then c.samplingPercentage else 100
  {
    var chosen := if c.samplingPercentage < 100 then c.samplingPercentage else 100;
    var a := if asked == [] then 0 else asked[0].id;
    TrackedIsDifference(c, asked, a, 100, chosen);
    ModuloIs(a + 100, 100, a / 100 + 1, a % 100);
    assert (a / 100 + 1) * chosen == a / 100 * chosen + chosen;
  }

  /** In byte mode a size of 2^63 or more, read as negative, is never picked and puts the next pick off. */
  lemma HugeSizesAreNotPicked(c: Config, a: Asked)
    requires ByteMode(c) && W64 / 2 <= a.size < W64 && a.first >= 1
    ensures !Picked(c, a)
    ensures Left(c, a) == (if a.countdown <= 0 then a.first else a.countdown) + (W64 - a.size)
  {
  }
}
