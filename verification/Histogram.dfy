/** The size histogram: eight buckets that cover every size but zero. */
module Histogram {
  import opened Words
  import opened Records

  datatype Bucket = Bucket(low: nat, high: nat, count: nat, bytes: nat)

  const BUCKETS: nat := 8

  function Low(k: nat): nat
    requires k < BUCKETS
  {
    [1, 17, 65, 257, 1025, 4097, 65537, 1048577][k]
  }

  function High(k: nat): nat
    requires k < BUCKETS
  {
    [16, 64, 256, 1024, 4096, 65536, 1048576, W64 - 1][k]
  }

  predicate Fits(k: nat, size: nat)
    requires k < BUCKETS
  {
    Low(k) <= size <= High(k)
  }

  /** The buckets adjoin: no size fits two, and only 0 fits none. */
  lemma OneBucketEach(size: nat)
    requires size < W64
    ensures (exists k: nat :: k < BUCKETS && Fits(k, size)) <==> size != 0
    ensures forall j: nat, k: nat :: j < k < BUCKETS ==> !(Fits(j, size) && Fits(k, size))
  {
    if size != 0 {
      assert Fits(0, size) || Fits(1, size) || Fits(2, size) || Fits(3, size)
          || Fits(4, size) || Fits(5, size) || Fits(6, size) || Fits(7, size);
    }
  }

  /** The upper ends are 2^4, 2^6, 2^8, 2^10, 2^12, 2^16, 2^20 and 2^64 - 1; each bucket begins where the last ends. */
  lemma Boundaries(k: nat, size: nat)
    requires k < BUCKETS
    ensures High(k) == Pow2([4, 6, 8, 10, 12, 16, 20, 64][k]) - if k == 7 then 1 else 0
    ensures Low(k) == if k == 0 then 1 else High(k - 1) + 1
    ensures size < W64 ==> (Fits(k, size) <==> size <= High(k) && if k == 0 then size > 0 else size > High(k - 1))
  {
    hide Pow2;
    Pow2Is64();
    PowersOfBuckets();
  }

  lemma PowersOfBuckets()
    ensures Pow2(4) == 16 && Pow2(6) == 64 && Pow2(8) == 256 && Pow2(10) == 1024 && Pow2(12) == 4096
    ensures Pow2(16) == 65536 && Pow2(20) == 1048576
  {
    assert Pow2(6) == 64;
    assert Pow2(12) == 4096;
    assert Pow2(16) == 65536;
  }

  function CountIn(sizes: seq<nat>, k: nat): nat
    requires k < BUCKETS
  {
    if sizes == [] then 0
    else CountIn(sizes[..|sizes| - 1], k) + if Fits(k, sizes[|sizes| - 1]) then 1 else 0
  }

  function BytesIn(sizes: seq<nat>, k: nat): nat
    requires k < BUCKETS
  {
    if sizes == [] then 0
    else BytesIn(sizes[..|sizes| - 1], k) + if Fits(k, sizes[|sizes| - 1]) then sizes[|sizes| - 1] else 0
  }

  /** Bucket number `k` after these sizes; its counters are 64-bit words. */
  function BucketAfter(sizes: seq<nat>, k: nat): Bucket
    requires k < BUCKETS
  {
    Bucket(Low(k), High(k), Wrap(CountIn(sizes, k)), Wrap(BytesIn(sizes, k)))
  }

  function Grown(b: Bucket, size: nat): Bucket {
    b.(count := Wrap(b.count + 1), bytes := Wrap(b.bytes + size))
  }

  lemma AfterOneMore(sizes: seq<nat>, size: nat)
    ensures forall k: nat :: k < BUCKETS ==>
      BucketAfter(sizes + [size], k)
        == if Fits(k, size) then Grown(BucketAfter(sizes, k), size) else BucketAfter(sizes, k)
  {
    hide Fits, Wrap;
    assert (sizes + [size])[..|sizes|] == sizes;
    forall k: nat | k < BUCKETS
      ensures BucketAfter(sizes + [size], k)
        == if Fits(k, size) then Grown(BucketAfter(sizes, k), size) else BucketAfter(sizes, k)
    {
      WrapAbsorbs(CountIn(sizes, k), 1);
      WrapAbsorbs(BytesIn(sizes, k), size);
    }
  }

  class AllocationHistogram {
    var buckets: seq<Bucket>

    /** The buckets hold exactly these sizes, modulo 2^64. */
    ghost predicate Holds(sizes: seq<nat>)
      reads this
    {
      |buckets| == BUCKETS && forall k :: 0 <= k < BUCKETS ==> buckets[k] == BucketAfter(sizes, k)
    }

    constructor ()
      ensures Holds([])
    {
      buckets := [Bucket(1, 16, 0, 0), Bucket(17, 64, 0, 0), Bucket(65, 256, 0, 0), Bucket(257, 1024, 0, 0),
                  Bucket(1025, 4096, 0, 0), Bucket(4097, 65536, 0, 0), Bucket(65537, 1048576, 0, 0),
                  Bucket(1048577, W64 - 1, 0, 0)];
    }

    /** Counts one size in the first bucket that it fits. */
    method Record(size: nat, ghost sizes: seq<nat>)
      requires Holds(sizes) && size < W64
      modifies this
      ensures Holds(sizes + [size])
    {
      hide Low, High, CountIn, BytesIn, Wrap;
      OneBucketEach(size);
      AfterOneMore(sizes, size);
      for i := 0 to |buckets|
        invariant buckets == old(buckets)
        invariant forall k :: 0 <= k < i ==> !Fits(k, size)
      {
        var b := buckets[i];
        if b.low <= size <= b.high {
          assert Fits(i, size);
          buckets := buckets[i := b.(count := Wrap(b.count + 1), bytes := Wrap(b.bytes + size))];
          return;
        }
      }
    }

    method Feed(rs: seq<Record>, ghost sizes: seq<nat>)
      requires Holds(sizes) && forall r :: r in rs ==> r.requested < W64
      modifies this
      ensures Holds(sizes + Sizes(rs))
    {
      hide Holds;
      assert sizes + Sizes(rs)[..0] == sizes;
      for i := 0 to |rs|
        invariant Holds(sizes + Sizes(rs)[..i])
      {
        Record(rs[i].requested, sizes + Sizes(rs)[..i]);
        assert sizes + Sizes(rs)[..i] + [rs[i].requested] == sizes + Sizes(rs)[..i + 1];
      }
      assert Sizes(rs)[..|rs|] == Sizes(rs);
    }
  }

  function Sizes(rs: seq<Record>): (s: seq<nat>)
    ensures |s| == |rs|
  {
    seq(|rs|, i requires 0 <= i < |rs| => rs[i].requested)
  }

  // ---------- conservation

  function CountUpTo(sizes: seq<nat>, k: nat): nat
    requires k <= BUCKETS
  {
    if k == 0 then 0 else CountUpTo(sizes, k - 1) + CountIn(sizes, k - 1)
  }

  function BytesUpTo(sizes: seq<nat>, k: nat): nat
    requires k <= BUCKETS
  {
    if k == 0 then 0 else BytesUpTo(sizes, k - 1) + BytesIn(sizes, k - 1)
  }

  function NonZero(sizes: seq<nat>): nat {
    if sizes == [] then 0 else NonZero(sizes[..|sizes| - 1]) + if sizes[|sizes| - 1] == 0 then 0 else 1
  }

  lemma {:induction false} NothingCounted(sizes: seq<nat>, k: nat)
    requires sizes == [] && k <= BUCKETS
    ensures CountUpTo(sizes, k) == 0 && BytesUpTo(sizes, k) == 0
  {
    if k > 0 { NothingCounted(sizes, k - 1); }
  }

  /** One more size adds to the first `k` buckets iff it is at most the last one's upper end. */
  lemma {:induction false} OneMore(sizes: seq<nat>, k: nat)
    requires sizes != [] && k <= BUCKETS
    ensures var rest, last := sizes[..|sizes| - 1], sizes[|sizes| - 1];
      var inside := k > 0 && 1 <= last <= High(k - 1);
      && CountUpTo(sizes, k) == CountUpTo(rest, k) + (if inside then 1 else 0)
      && BytesUpTo(sizes, k) == BytesUpTo(rest, k) + (if inside then last else 0)
  {
    if k > 0 { OneMore(sizes, k - 1); }
  }

  /** Over all buckets, every size but 0 is counted once with all its bytes. */
  lemma {:induction false} BucketsConserve(sizes: seq<nat>)
    requires forall i :: 0 <= i < |sizes| ==> sizes[i] < W64
    ensures CountUpTo(sizes, BUCKETS) == NonZero(sizes) && BytesUpTo(sizes, BUCKETS) == TotalOf(sizes)
    decreases |sizes|
  {
    if sizes == [] {
      NothingCounted(sizes, BUCKETS);
    } else {
      BucketsConserve(sizes[..|sizes| - 1]);
      OneMore(sizes, BUCKETS);
    }
  }

  lemma {:induction false} BucketBelowTotal(sizes: seq<nat>, k: nat, n: nat)
    requires k < n <= BUCKETS
    ensures CountIn(sizes, k) <= CountUpTo(sizes, n) && BytesIn(sizes, k) <= BytesUpTo(sizes, n)
  {
    hide CountIn, BytesIn;
    if k < n - 1 { BucketBelowTotal(sizes, k, n - 1); }
  }

  /** As long as the bytes fed, and their number, stay below 2^64, every bucket is exact. */
  lemma BucketsAreExact(sizes: seq<nat>, k: nat)
    requires k < BUCKETS && |sizes| < W64 && TotalOf(sizes) < W64
    requires forall i :: 0 <= i < |sizes| ==> sizes[i] < W64
    ensures BucketAfter(sizes, k) == Bucket(Low(k), High(k), CountIn(sizes, k), BytesIn(sizes, k))
  {
    hide CountIn, BytesIn, CountUpTo, BytesUpTo, Low, High;
    BucketsConserve(sizes);
    NonZeroAtMost(sizes);
    BucketBelowTotal(sizes, k, BUCKETS);
    WrapSmall(CountIn(sizes, k));
    WrapSmall(BytesIn(sizes, k));
  }

  lemma {:induction false} NonZeroAtMost(sizes: seq<nat>)
    ensures NonZero(sizes) <= |sizes|
  {
    if sizes != [] { NonZeroAtMost(sizes[..|sizes| - 1]); }
  }
}
