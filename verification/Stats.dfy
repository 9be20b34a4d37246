/** Allocation counters, and sums over the tracked records that they account for. */
module Stats {
  import opened Words
  import opened Records

  datatype Counters = Counters(
    totalAllocated: nat, totalFreed: nat, current: nat, peak: nat,
    allocations: nat, frees: nat, active: nat)

  const ZERO: Counters := Counters(0, 0, 0, 0, 0, 0, 0)

  function OnAlloc(s: Counters, bytes: nat): Counters {
    var current := Wrap(s.current + bytes);
    Counters(Wrap(s.totalAllocated + bytes), s.totalFreed, current, if current > s.peak then current else s.peak,
             Wrap(s.allocations + 1), s.frees, Wrap(s.active + 1))
  }

  function OnFree(s: Counters, bytes: nat): Counters {
    Counters(s.totalAllocated, Wrap(s.totalFreed + bytes), Wrap(s.current - bytes), s.peak,
             s.allocations, Wrap(s.frees + 1), Wrap(s.active - 1))
  }

  /** The counters as an object; one thread at a time. */
  class MemoryStats {
    var totalAllocated: nat
    var totalFreed: nat
    var current: nat
    var peak: nat
    var allocations: nat
    var frees: nat
    var active: nat

    ghost function State(): Counters
      reads this
    {
      Counters(totalAllocated, totalFreed, current, peak, allocations, frees, active)
    }

    constructor ()
      ensures State() == ZERO
    {
      totalAllocated, totalFreed, current, peak, allocations, frees, active := 0, 0, 0, 0, 0, 0, 0;
    }

    /** A weak compare-and-exchange on the peak: it may fail for no reason, and then reports the value found. */
    method CompareExchangeWeak(expected: nat, desired: nat, spurious: bool) returns (ok: bool, seen: nat)
      modifies this`peak
      ensures ok == (!spurious && old(peak) == expected)
      ensures peak == if ok then desired else old(peak)
      ensures seen == if ok then expected else old(peak)
    {
      if !spurious && peak == expected {
        peak := desired;
        return true, expected;
      }
      return false, peak;
    }

    /** `spuriousFailures` is how often the exchange fails for no reason before it goes through. */
    method UpdateOnAlloc(bytes: nat, spuriousFailures: nat)
      modifies this
      ensures State() == OnAlloc(old(State()), bytes)
      ensures totalAllocated == (old(totalAllocated) + bytes) % W64 && totalFreed == old(totalFreed)
      ensures allocations == (old(allocations) + 1) % W64 && frees == old(frees)
      ensures current == (old(current) + bytes) % W64 && active == (old(active) + 1) % W64
      ensures peak == if current > old(peak) then current else old(peak)
    {
      totalAllocated := Wrap(totalAllocated + bytes);
      allocations := Wrap(allocations + 1);
      active := Wrap(active + 1);
      current := Wrap(current + bytes);
      var mine, seen, left := current, peak, spuriousFailures;
      while mine > seen
        invariant State() == OnAlloc(old(State()), bytes).(peak := peak)
        invariant seen == peak
        invariant peak == old(peak) || (peak == mine && old(peak) < mine)
        decreases left, mine > seen
      {
        var ok;
        ok, seen := CompareExchangeWeak(seen, mine, left > 0);
        if ok { break; }
        left := left - 1;
      }
    }

    method UpdateOnFree(bytes: nat)
      modifies this
      ensures State() == OnFree(old(State()), bytes)
      ensures totalFreed == (old(totalFreed) + bytes) % W64 && totalAllocated == old(totalAllocated)
      ensures frees == (old(frees) + 1) % W64 && allocations == old(allocations)
      ensures current == (old(current) - bytes) % W64 && active == (old(active) - 1) % W64 && peak == old(peak)
    {
      totalFreed := Wrap(totalFreed + bytes);
      frees := Wrap(frees + 1);
      active := Wrap(active - 1);
      current := Wrap(current - bytes);
    }
  }

  // ---------- what the counters stand for

  datatype Update = Gained(bytes: nat) | Lost(bytes: nat)

  function Gain(u: Update): int {
    var n: int := u.bytes;
    if u.Gained? then n else -n
  }

  function Updated(s: Counters, u: Update): Counters {
    match u
    case Gained(n) => OnAlloc(s, n)
    case Lost(n) => OnFree(s, n)
  }

  /** The counters after these updates. */
  function AfterAll(us: seq<Update>): Counters {
    if us == [] then ZERO else Updated(AfterAll(us[..|us| - 1]), us[|us| - 1])
  }

  /** The bytes of the allocations among the updates, or of the frees. */
  function BytesOf(us: seq<Update>, gained: bool): nat {
    if us == [] then 0 else
    BytesOf(us[..|us| - 1], gained) + if us[|us| - 1].Gained? == gained then us[|us| - 1].bytes else 0
  }

  function NumberOf(us: seq<Update>, gained: bool): nat {
    if us == [] then 0 else
    NumberOf(us[..|us| - 1], gained) + if us[|us| - 1].Gained? == gained then 1 else 0
  }

  /**
   After any updates the counters are the bytes and numbers of all allocations and frees so far, and
   their differences, modulo 2^64.
   */
  lemma {:induction false} CountersAreSums(us: seq<Update>)
    ensures var s := AfterAll(us);
      && s.totalAllocated == Wrap(BytesOf(us, true)) && s.totalFreed == Wrap(BytesOf(us, false))
      && s.allocations == Wrap(NumberOf(us, true)) && s.frees == Wrap(NumberOf(us, false))
      && s.current == Wrap(BytesOf(us, true) - BytesOf(us, false))
      && s.active == Wrap(NumberOf(us, true) - NumberOf(us, false))
  {
    hide Wrap;
    if us == [] {
      WrapSmall(0);
    } else {
      var rest := us[..|us| - 1];
      var n: int := us[|us| - 1].bytes;
      CountersAreSums(rest);
      if us[|us| - 1].Gained? {
        WrapAbsorbs(BytesOf(rest, true), n);
        WrapAbsorbs(NumberOf(rest, true), 1);
        WrapAbsorbs(BytesOf(rest, true) - BytesOf(rest, false), n);
        WrapAbsorbs(NumberOf(rest, true) - NumberOf(rest, false), 1);
      } else {
        WrapAbsorbs(BytesOf(rest, false), n);
        WrapAbsorbs(NumberOf(rest, false), 1);
        WrapAbsorbs(BytesOf(rest, true) - BytesOf(rest, false), -n);
        WrapAbsorbs(NumberOf(rest, true) - NumberOf(rest, false), -1);
      }
    }
  }

  /** The byte counter after the first `k` updates. */
  function CurrentAfter(us: seq<Update>, k: nat): nat
    requires k <= |us|
  {
    AfterAll(us[..k]).current
  }

  /** No more is freed than was allocated, and what is left fits a word. */
  ghost predicate Balanced(us: seq<Update>) {
    forall k :: 0 <= k <= |us| ==> 0 <= BytesOf(us[..k], true) - BytesOf(us[..k], false) < W64
  }

  /** The peak is the largest value that the byte counter has had. */
  lemma {:induction false} PeakIsLargest(us: seq<Update>)
    requires Balanced(us)
    ensures forall k :: 0 <= k <= |us| ==> CurrentAfter(us, k) <= AfterAll(us).peak
    ensures exists k :: 0 <= k <= |us| && CurrentAfter(us, k) == AfterAll(us).peak
  {
    hide BytesOf;
    if us == [] {
      assert CurrentAfter(us, 0) == AfterAll(us).peak;
    } else {
      var n := |us| - 1;
      forall k | 0 <= k <= n ensures us[..n][..k] == us[..k] {}
      PeakIsLargest(us[..n]);
      forall k | 0 <= k <= n ensures CurrentAfter(us, k) == CurrentAfter(us[..n], k) {}
      CurrentStep(us);
      var k :| 0 <= k <= n && CurrentAfter(us[..n], k) == AfterAll(us[..n]).peak;
      assert CurrentAfter(us, if AfterAll(us).peak == AfterAll(us[..n]).peak then k else n + 1) == AfterAll(us).peak;
    }
  }

  lemma CurrentStep(us: seq<Update>)
    requires us != [] && Balanced(us)
    ensures var s, s', n := AfterAll(us[..|us| - 1]), AfterAll(us), |us| - 1;
      && CurrentAfter(us, n) == s.current && CurrentAfter(us, n + 1) == s'.current
      && (s'.peak == s.peak || s'.peak == s'.current > s.peak)
      && (s'.current <= s'.peak || s'.current <= s.current)
  {
    hide AfterAll, BytesOf, Updated, Wrap;
    var n := |us| - 1;
    assert us[..n + 1] == us;
    LastUpdate(us);
    CountersAreSums(us[..n]);
    assert 0 <= BytesOf(us[..n], true) - BytesOf(us[..n], false) < W64;
    assert 0 <= BytesOf(us[..n + 1], true) - BytesOf(us[..n + 1], false) < W64;
    WrapSmall(BytesOf(us[..n], true) - BytesOf(us[..n], false));
    UpdateMovesPeak(AfterAll(us[..n]), us[n]);
  }

  lemma LastUpdate(us: seq<Update>)
    requires us != []
    ensures var rest, u := us[..|us| - 1], us[|us| - 1];
      && AfterAll(us) == Updated(AfterAll(rest), u)
      && BytesOf(us, true) - BytesOf(us, false)
         == BytesOf(rest, true) - BytesOf(rest, false) + Gain(u)
  {
  }

  lemma UpdateMovesPeak(s: Counters, u: Update)
    requires 0 <= s.current + Gain(u) < W64
    ensures var s' := Updated(s, u);
      && (s'.peak == s.peak || s'.peak == s'.current > s.peak)
      && (s'.current <= s'.peak || s'.current <= s.current)
  {
    hide Wrap;
    WrapSmall(s.current + Gain(u));
  }

  // ---------- sums over records

  ghost function SumRequested(m: Table): nat
    decreases |m|
  {
    if m == map[] then 0 else
    var p :| p in m;
    m[p].requested + SumRequested(m - {p})
  }

  lemma {:induction false} SumWithout(m: Table, p: nat)
    requires p in m
    ensures SumRequested(m) == m[p].requested + SumRequested(m - {p})
    decreases |m|
  {
    var q :| q in m && SumRequested(m) == m[q].requested + SumRequested(m - {q});
    if q != p {
      SumWithout(m - {q}, p);
      SumWithout(m - {p}, q);
      assert m - {q} - {p} == m - {p} - {q};
    }
  }

  lemma SumWith(m: Table, p: nat, r: Record)
    requires p !in m
    ensures SumRequested(m[p := r]) == SumRequested(m) + r.requested
    ensures |m[p := r]| == |m| + 1
  {
    SumWithout(m[p := r], p);
    assert m[p := r] - {p} == m;
  }

  lemma OneLess(recs: Table, p: nat)
    requires p in recs
    ensures |recs - {p}| == |recs| - 1
  {
    assert recs.Keys - {p} == (recs - {p}).Keys;
  }

  /** User regions in a line: of any two, one ends before the other begins. */
  ghost predicate Apart(m: Table) {
    forall p, q :: p in m && q in m && p != q ==>
      p + m[p].requested <= q || q + m[q].requested <= p
  }

  lemma {:induction false} LastKey(s: set<nat>) returns (top: nat)
    requires s != {}
    ensures top in s && forall p :: p in s ==> p <= top
  {
    var p :| p in s;
    if s == {p} { return p; }
    var q := LastKey(s - {p});
    top := if p > q then p else q;
    assert forall x :: x in s ==> x == p || x in s - {p};
  }

  /** Regions that lie apart below a limit hold no more bytes than the limit. */
  lemma {:induction false} ApartSumsBelow(m: Table, limit: nat)
    requires Apart(m) && forall p :: p in m ==> p + m[p].requested <= limit
    ensures SumRequested(m) <= limit
    decreases |m|
  {
    if m != map[] {
      var top := LastKey(m.Keys);
      SumWithout(m, top);
      ApartSumsBelow(m - {top}, top);
    }
  }
}
