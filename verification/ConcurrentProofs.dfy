/**
 What every step of every thread keeps: each outstanding block has exactly one owner, the counters
 account for the records and the operations in flight, and the peak follows the history of `current`.
 */
module ConcurrentProofs {
  import opened Words
  import opened Wrappers
  import opened Layout
  import opened Records
  import opened TrackerSpec
  import opened Stats
  import opened SystemHeap
  import opened ManagerSpec
  import opened Concurrent

  // ---------- ownership

  /** Record `r` has an outstanding block around its payload. */
  ghost predicate ClaimOk(live: map<nat, nat>, r: Record) {
    r.rawPtr in live && r.rawPtr < r.userPtr && r.userPtr + r.requested < r.rawPtr + live[r.rawPtr]
  }

  ghost predicate Owns(recs: Table, threads: seq<Pc>, a: Slot, raw: nat) {
    Owned(recs, threads, a).Some? && Owned(recs, threads, a).value.rawPtr == raw
  }

  /** No two owners share a block. */
  ghost predicate Claims(recs: Table, threads: seq<Pc>, live: map<nat, nat>) {
    && (forall a :: Owned(recs, threads, a).Some? ==> ClaimOk(live, Owned(recs, threads, a).value))
    && (forall a, b :: a != b && Owned(recs, threads, a).Some? && Owned(recs, threads, b).Some? ==>
          Owned(recs, threads, a).value.rawPtr != Owned(recs, threads, b).value.rawPtr)
  }

  /**
   Every outstanding block is recorded, held by one thread or one of the `loose` ones, retained or plain,
   and only one of these.
   */
  ghost predicate Ownership(recs: Table, threads: seq<Pc>, live: map<nat, nat>, loose: set<nat>) {
    && Claims(recs, threads, live)
    && (forall p :: p in recs ==> recs[p].userPtr == p)
    && (forall raw :: raw in loose ==> raw in live)
    && (forall a :: Owned(recs, threads, a).Some? ==> Owned(recs, threads, a).value.rawPtr !in loose)
    && (forall raw :: raw in live && raw !in loose ==> exists a :: Owns(recs, threads, a, raw))
  }

  /** A step that leaves every owner its block. */
  lemma SameOwners(recs: Table, threads: seq<Pc>, live: map<nat, nat>, loose: set<nat>, i: nat, pc: Pc)
    requires Ownership(recs, threads, live, loose) && i < |threads| && Holding(pc) == Holding(threads[i])
    ensures Ownership(recs, threads[i := pc], live, loose)
  {
    hide ClaimOk, Holding;
    var threads' := threads[i := pc];
    assert forall a :: Owned(recs, threads', a) == Owned(recs, threads, a);
    forall raw | raw in live && raw !in loose ensures exists a :: Owns(recs, threads', a, raw) {
      var a :| Owns(recs, threads, a, raw);
      assert Owns(recs, threads', a, raw);
    }
  }

  /** A thread gets a fresh block. */
  lemma NewOwner(recs: Table, threads: seq<Pc>, live: map<nat, nat>, loose: set<nat>, i: nat, pc: Pc, total: nat)
    requires Ownership(recs, threads, live, loose) && i < |threads| && Holding(threads[i]) == None
    requires Holding(pc).Some? && Holding(pc).value.rawPtr !in live
    requires ClaimOk(live[Holding(pc).value.rawPtr := total], Holding(pc).value)
    ensures Ownership(recs, threads[i := pc], live[Holding(pc).value.rawPtr := total], loose)
  {
    hide Holding;
    var threads', r := threads[i := pc], Holding(pc).value;
    var live' := live[r.rawPtr := total];
    assert forall a :: a != Held(i) ==> Owned(recs, threads', a) == Owned(recs, threads, a);
    assert Owned(recs, threads', Held(i)) == Some(r) && Owned(recs, threads, Held(i)) == None;
    forall raw | raw in live' && raw !in loose ensures exists a :: Owns(recs, threads', a, raw) {
      if raw == r.rawPtr {
        assert Owns(recs, threads', Held(i), raw);
      } else {
        var a :| Owns(recs, threads, a, raw);
        assert Owns(recs, threads', a, raw);
      }
    }
  }

  /** One owner hands its block to another slot. */
  lemma OwnerMoves(recs: Table, threads: seq<Pc>, recs': Table, threads': seq<Pc>,
                   live: map<nat, nat>, loose: set<nat>, from: Slot, to: Slot)
    requires Ownership(recs, threads, live, loose) && from != to
    requires Owned(recs, threads, from).Some? && Owned(recs, threads, to) == None
    requires Owned(recs', threads', from) == None && Owned(recs', threads', to) == Owned(recs, threads, from)
    requires forall a :: a != from && a != to ==> Owned(recs', threads', a) == Owned(recs, threads, a)
    requires forall p :: p in recs' ==> recs'[p].userPtr == p
    ensures Ownership(recs', threads', live, loose)
  {
    hide ClaimOk, Owned;
    forall raw | raw in live && raw !in loose ensures exists a :: Owns(recs', threads', a, raw) {
      var a :| Owns(recs, threads, a, raw);
      assert Owns(recs', threads', if a == from then to else a, raw);
    }
  }

  /** A thread hands its block over to the tracker. */
  lemma OwnerInserted(recs: Table, threads: seq<Pc>, live: map<nat, nat>, loose: set<nat>, i: nat, r: Record)
    requires Ownership(recs, threads, live, loose) && i < |threads| && Holding(threads[i]) == Some(r)
    requires r.userPtr !in recs
    ensures Ownership(recs[r.userPtr := r], threads[i := Idle], live, loose)
  {
    hide ClaimOk, Claims;
    OwnerMoves(recs, threads, recs[r.userPtr := r], threads[i := Idle], live, loose, Held(i), Kept(r.userPtr));
  }

  /** A thread takes a block over from the tracker. */
  lemma OwnerErased(recs: Table, threads: seq<Pc>, live: map<nat, nat>, loose: set<nat>, i: nat, p: nat)
    requires Ownership(recs, threads, live, loose) && i < |threads| && Holding(threads[i]) == None && p in recs
    ensures Ownership(recs - {p}, threads[i := Erased(recs[p])], live, loose)
  {
    hide ClaimOk, Claims;
    OwnerMoves(recs, threads, recs - {p}, threads[i := Erased(recs[p])], live, loose, Kept(p), Held(i));
  }

  /** A thread gives its block back, or leaves it loose. */
  lemma OwnerGone(recs: Table, threads: seq<Pc>, live: map<nat, nat>, loose: set<nat>, i: nat, r: Record)
    requires Ownership(recs, threads, live, loose) && i < |threads| && Holding(threads[i]) == Some(r)
    ensures r.rawPtr in live && r.rawPtr !in loose
    ensures Ownership(recs, threads[i := Idle], live - {r.rawPtr}, loose)
    ensures Ownership(recs, threads[i := Idle], live, loose + {r.rawPtr})
  {
    var threads' := threads[i := Idle];
    assert Owned(recs, threads, Held(i)) == Some(r) && Owned(recs, threads', Held(i)) == None;
    assert forall a :: a != Held(i) ==> Owned(recs, threads', a) == Owned(recs, threads, a);
    forall raw | raw in live && raw !in loose && raw != r.rawPtr ensures exists a :: Owns(recs, threads', a, raw) {
      var a :| Owns(recs, threads, a, raw);
      assert Owns(recs, threads', a, raw);
    }
  }

  /** The record a thread is about to insert has an address that no live record has. */
  lemma InsertIsFresh(recs: Table, threads: seq<Pc>, live: map<nat, nat>, loose: set<nat>, limit: nat, i: nat,
                      r: Record)
    requires Ownership(recs, threads, live, loose) && LiveOk(live, limit)
    requires i < |threads| && Holding(threads[i]) == Some(r)
    ensures r.userPtr !in recs && r.userPtr != 0
  {
    hide Holding;
    assert Owned(recs, threads, Held(i)) == Some(r);
    assert r.userPtr in recs ==> Owned(recs, threads, Kept(r.userPtr)) == Some(recs[r.userPtr]);
  }

  /** A block is handed out that no record describes. */
  lemma LooseAdded(recs: Table, threads: seq<Pc>, live: map<nat, nat>, loose: set<nat>, raw: nat, size: nat)
    requires Ownership(recs, threads, live, loose) && raw !in live
    ensures Ownership(recs, threads, live[raw := size], loose + {raw})
  {
    hide Owned;
  }

  lemma LooseGone(recs: Table, threads: seq<Pc>, live: map<nat, nat>, loose: set<nat>, raw: nat)
    requires Ownership(recs, threads, live, loose) && raw in loose
    ensures raw in live && Ownership(recs, threads, live - {raw}, loose - {raw})
  {
    hide Owned;
  }

  // ---------- sums over threads

  lemma {:induction false} InFlightUpdate(k: Measure, threads: seq<Pc>, i: nat, pc: Pc)
    requires i < |threads|
    ensures InFlight(k, threads[i := pc]) == InFlight(k, threads) - Weight(k, threads[i]) + Weight(k, pc)
  {
    hide Weight;
    var last := |threads| - 1;
    if i < last {
      InFlightUpdate(k, threads[..last], i, pc);
      assert threads[i := pc][..last] == threads[..last][i := pc];
    } else {
      assert threads[i := pc][..last] == threads[..last];
    }
  }

  // ---------- all that is counted fits in the outstanding blocks

  ghost function Total(live: map<nat, nat>): nat
    decreases |live|
  {
    if live == map[] then 0 else
    var r :| r in live;
    live[r] + Total(live - {r})
  }

  lemma {:induction false} TotalWithout(live: map<nat, nat>, r: nat)
    requires r in live
    ensures Total(live) == live[r] + Total(live - {r})
    decreases |live|
  {
    var q :| q in live && Total(live) == live[q] + Total(live - {q});
    if q != r {
      TotalWithout(live - {q}, r);
      TotalWithout(live - {r}, q);
      assert live - {q} - {r} == live - {r} - {q};
    }
  }

  lemma {:induction false} TotalInMemory(live: map<nat, nat>, limit: nat)
    requires LiveOk(live, limit)
    ensures Total(live) <= limit
    decreases |live|
  {
    if live != map[] {
      var top := LastKey(live.Keys);
      TotalWithout(live, top);
      TotalInMemory(live - {top}, top);
    }
  }

  lemma WeightBound(pc: Pc)
    ensures Weight(Bytes, pc) + Weight(Blocks, pc) <= if Holding(pc).Some? then Holding(pc).value.requested + 1 else 0
  {
  }

  /** The claims left when one claim and its block are taken away. */
  lemma ClaimsWithoutLast(recs: Table, threads: seq<Pc>, live: map<nat, nat>)
    requires Claims(recs, threads, live) && threads != []
    ensures var last := |threads| - 1;
      && (Holding(threads[last]).Some? ==>
            var r := Holding(threads[last]).value;
            && r.rawPtr in live && r.requested + 1 <= live[r.rawPtr]
            && Claims(recs, threads[..last], live - {r.rawPtr}))
      && Claims(recs, threads[..last], live)
  {
    hide Holding;
    var last := |threads| - 1;
    assert forall a :: a != Held(last) ==> Owned(recs, threads[..last], a) == Owned(recs, threads, a);
    assert Owned(recs, threads[..last], Held(last)) == None;
    assert Owned(recs, threads, Held(last)) == Holding(threads[last]);
  }

  lemma ClaimsWithoutRecord(recs: Table, live: map<nat, nat>, p: nat)
    requires Claims(recs, [], live) && p in recs
    ensures recs[p].rawPtr in live && recs[p].requested + 1 <= live[recs[p].rawPtr]
    ensures Claims(recs - {p}, [], live - {recs[p].rawPtr})
  {
    assert Owned(recs, [], Kept(p)) == Some(recs[p]);
    assert forall a :: Owned(recs - {p}, [], a) == if a == Kept(p) then None else Owned(recs, [], a);
  }

  /** Bytes and blocks counted, in the tracker or in flight, fit in the outstanding blocks. */
  lemma {:induction false} CountedFits(recs: Table, threads: seq<Pc>, live: map<nat, nat>)
    requires Claims(recs, threads, live)
    ensures SumRequested(recs) + |recs| + InFlight(Bytes, threads) + InFlight(Blocks, threads) <= Total(live)
    decreases |threads|, |recs|
  {
    hide Claims, Holding, Weight;
    if threads != [] {
      var last := |threads| - 1;
      ClaimsWithoutLast(recs, threads, live);
      WeightBound(threads[last]);
      if Holding(threads[last]).Some? {
        var r := Holding(threads[last]).value;
        TotalWithout(live, r.rawPtr);
        CountedFits(recs, threads[..last], live - {r.rawPtr});
      } else {
        CountedFits(recs, threads[..last], live);
      }
    } else if recs != map[] {
      var p :| p in recs;
      ClaimsWithoutRecord(recs, live, p);
      TotalWithout(live, recs[p].rawPtr);
      SumWithout(recs, p);
      OneLess(recs, p);
      CountedFits(recs - {p}, [], live - {recs[p].rawPtr});
    }
  }

  // ---------- the counters

  /**
   `current` and `active` are exactly what the tracker holds plus what is in flight; the two pairs
   of running totals agree with it modulo 2^64.
   */
  ghost predicate Accounts(recs: Table, threads: seq<Pc>, s: Counters) {
    && s.current == SumRequested(recs) + InFlight(Bytes, threads)
    && s.active == |recs| + InFlight(Blocks, threads)
    && Wrap(s.totalAllocated - s.totalFreed) == Wrap(SumRequested(recs) + InFlight(AllBytes, threads))
    && Wrap(s.allocations - s.frees) == Wrap(|recs| + InFlight(AllBlocks, threads))
  }

  function Change(k: Measure, was: Pc, now: Pc): int { Weight(k, now) - Weight(k, was) }

  /** The counters move with the weights of the thread that steps. */
  ghost predicate CountersFollow(s: Counters, s': Counters, was: Pc, now: Pc) {
    && s'.current == Wrap(s.current + Change(Bytes, was, now))
    && s'.active == Wrap(s.active + Change(Blocks, was, now))
    && Wrap(s'.totalAllocated - s'.totalFreed) == Wrap(s.totalAllocated - s.totalFreed + Change(AllBytes, was, now))
    && Wrap(s'.allocations - s'.frees) == Wrap(s.allocations - s.frees + Change(AllBlocks, was, now))
  }

  lemma WrapShift(a: int, b: int, d: int)
    requires Wrap(a) == Wrap(b)
    ensures Wrap(a + d) == Wrap(b + d)
  {
    hide Wrap;
    WrapAbsorbs(a, d);
    WrapAbsorbs(b, d);
  }

  lemma CountersStay(s: Counters, was: Pc, now: Pc)
    requires s.current < W64 && s.active < W64
    requires forall k :: Change(k, was, now) == 0
    ensures CountersFollow(s, s, was, now)
  {
    hide Weight;
  }

  lemma AccountsFollow(recs: Table, threads: seq<Pc>, s: Counters, s': Counters, i: nat, pc: Pc)
    requires Accounts(recs, threads, s) && i < |threads| && CountersFollow(s, s', threads[i], pc)
    requires SumRequested(recs) + InFlight(Bytes, threads[i := pc]) < W64
    requires |recs| + InFlight(Blocks, threads[i := pc]) < W64
    ensures Accounts(recs, threads[i := pc], s')
  {
    hide Weight, Wrap, SumRequested, InFlight;
    forall k ensures InFlight(k, threads[i := pc]) == InFlight(k, threads) + Change(k, threads[i], pc) {
      InFlightUpdate(k, threads, i, pc);
    }
    WrapSmall(s.current + Change(Bytes, threads[i], pc));
    WrapSmall(s.active + Change(Blocks, threads[i], pc));
    WrapShift(s.totalAllocated - s.totalFreed, SumRequested(recs) + InFlight(AllBytes, threads),
              Change(AllBytes, threads[i], pc));
    WrapShift(s.allocations - s.frees, |recs| + InFlight(AllBlocks, threads), Change(AllBlocks, threads[i], pc));
  }

  /** Handing a record over between thread and tracker does not change what is counted. */
  lemma AccountsInsert(recs: Table, threads: seq<Pc>, s: Counters, i: nat, r: Record)
    requires Accounts(recs, threads, s) && i < |threads| && threads[i].Counted? && threads[i].r == r
    requires r.userPtr !in recs
    ensures Accounts(recs[r.userPtr := r], threads[i := Idle], s)
  {
    hide Wrap, SumRequested, InFlight;
    SumWith(recs, r.userPtr, r);
    forall k ensures InFlight(k, threads[i := Idle]) == InFlight(k, threads) - Weight(k, threads[i]) {
      InFlightUpdate(k, threads, i, Idle);
    }
  }

  lemma AccountsErase(recs: Table, threads: seq<Pc>, s: Counters, i: nat, p: nat)
    requires Accounts(recs, threads, s) && i < |threads| && threads[i].Idle? && p in recs
    ensures Accounts(recs - {p}, threads[i := Erased(recs[p])], s)
  {
    hide Wrap, SumRequested, InFlight;
    SumWithout(recs, p);
    OneLess(recs, p);
    forall k ensures InFlight(k, threads[i := Erased(recs[p])]) == InFlight(k, threads) + Weight(k, Erased(recs[p])) {
      InFlightUpdate(k, threads, i, Erased(recs[p]));
    }
  }

  // ---------- the peak

  /** The peak after the first `k` raises. */
  function PeakAt(raises: seq<Raise>, k: nat): nat
    requires k <= |raises|
  {
    if k == 0 then 0 else raises[k - 1].to
  }

  predicate Raising(pc: Pc) { pc.CurrentAdded? || pc.PeakLoaded? }

  /** A thread's view of the peak is one the peak had, and its lost exchanges are other threads' raises. */
  ghost predicate ViewOk(i: nat, pc: Pc, past: Past, peak: nat) {
    match pc
    case CurrentAdded(_, mine) => mine <= past.high
    case PeakLoaded(_, mine, seen, at, start, failures) =>
      && mine <= past.high
      && start <= at <= |past.raises| && seen == PeakAt(past.raises, at)
      && failures <= at - start
      && forall k :: start <= k < |past.raises| ==> past.raises[k].thread != i
    case Counted(_, mine) => mine <= peak
    case _ => true
  }

  ghost predicate PeakOk(threads: seq<Pc>, s: Counters, past: Past) {
    && s.peak == PeakAt(past.raises, |past.raises|)
    && (forall j: nat, k: nat :: j < k <= |past.raises| ==> PeakAt(past.raises, j) < PeakAt(past.raises, k))
    && s.peak <= past.high && s.current <= past.high && past.completed <= s.peak
    && (forall i :: 0 <= i < |threads| ==> ViewOk(i, threads[i], past, s.peak))
    && (past.high <= s.peak || exists i :: HoldsHigh(threads, i, past.high))
  }

  /** Thread `i` has raised `current` to `high` and has yet to settle the peak. */
  predicate HoldsHigh(threads: seq<Pc>, i: int, high: nat) {
    0 <= i < |threads| && Raising(threads[i]) && threads[i].mine == high
  }

  /** Steps outside the peak loop that neither raise `current` nor read the peak. */
  lemma PeakUntouched(threads: seq<Pc>, s: Counters, s': Counters, past: Past, past': Past, i: nat, pc: Pc)
    requires PeakOk(threads, s, past) && i < |threads|
    requires !Raising(threads[i]) && !Raising(pc) && !pc.Counted?
    requires s'.peak == s.peak && s'.current <= s.current
    requires past'.high == past.high && past'.raises == past.raises && past'.completed == past.completed
    ensures PeakOk(threads[i := pc], s', past')
  {
    hide PeakAt;
    var threads' := threads[i := pc];
    forall j | 0 <= j < |threads| ensures ViewOk(j, threads'[j], past', s'.peak) {
      assert j != i ==> ViewOk(j, threads[j], past, s.peak);
    }
    HighStays(threads, i, pc, threads', past.high, s.peak);
  }

  /** A thread that does not hold the maximum may go on. */
  lemma HighStays(threads: seq<Pc>, i: nat, pc: Pc, threads': seq<Pc>, high: nat, peak: nat)
    requires i < |threads| && threads' == threads[i := pc] && (high <= peak || exists j :: HoldsHigh(threads, j, high))
    requires Raising(threads[i]) && threads[i].mine == high ==> high <= peak || (Raising(pc) && pc.mine == high)
    ensures high <= peak || exists j :: HoldsHigh(threads', j, high)
  {
    if high > peak {
      var j :| HoldsHigh(threads, j, high);
      assert HoldsHigh(threads', j, high);
    }
  }

  lemma PeakOnAdd(w: World, i: nat, r: Record, current: nat)
    requires PeakOk(w.threads, w.counters, w.past) && i < |w.threads| && w.threads[i] == ActiveAdded(r)
    ensures var w' := At(WithCurrent(w, current), i, CurrentAdded(r, current)); PeakOk(w'.threads, w'.counters, w'.past)
  {
    hide PeakAt;
    var w' := At(WithCurrent(w, current), i, CurrentAdded(r, current));
    forall j | 0 <= j < |w.threads| ensures ViewOk(j, w'.threads[j], w'.past, w'.counters.peak) {
      assert ViewOk(j, w.threads[j], w.past, w.counters.peak);
    }
    if w.past.high < current {
      assert HoldsHigh(w'.threads, i, current);
    } else {
      HighStays(w.threads, i, CurrentAdded(r, current), w'.threads, w.past.high, w.counters.peak);
    }
  }

  lemma PeakOnLoad(w: World, i: nat, r: Record, mine: nat)
    requires PeakOk(w.threads, w.counters, w.past) && i < |w.threads| && w.threads[i] == CurrentAdded(r, mine)
    ensures var n := |w.past.raises|;
      PeakOk(w.threads[i := PeakLoaded(r, mine, w.counters.peak, n, n, 0)], w.counters, w.past)
  {
    hide PeakAt;
    var n := |w.past.raises|;
    var pc := PeakLoaded(r, mine, w.counters.peak, n, n, 0);
    var threads' := w.threads[i := pc];
    forall j | 0 <= j < |threads'| ensures ViewOk(j, threads'[j], w.past, w.counters.peak) {
      assert ViewOk(j, w.threads[j], w.past, w.counters.peak);
    }
    HighStays(w.threads, i, pc, threads', w.past.high, w.counters.peak);
  }

  lemma PeakOnLeave(w: World, i: nat)
    requires PeakOk(w.threads, w.counters, w.past) && i < |w.threads| && w.threads[i].PeakLoaded?
    requires w.threads[i].mine <= w.threads[i].seen
    ensures var w' := PeakStep(w, i, false); PeakOk(w'.threads, w'.counters, w'.past)
  {
    var w' := PeakStep(w, i, false);
    assert ViewOk(i, w.threads[i], w.past, w.counters.peak);
    assert w.threads[i].seen <= w.counters.peak;
    forall j | 0 <= j < |w.threads| ensures ViewOk(j, w'.threads[j], w'.past, w'.counters.peak) {
      assert ViewOk(j, w.threads[j], w.past, w.counters.peak);
    }
    HighStays(w.threads, i, w'.threads[i], w'.threads, w.past.high, w.counters.peak);
  }

  lemma PeakOnRaise(w: World, i: nat)
    requires PeakOk(w.threads, w.counters, w.past) && i < |w.threads| && w.threads[i].PeakLoaded?
    requires w.threads[i].mine > w.threads[i].seen == w.counters.peak
    ensures var w' := PeakStep(w, i, false); PeakOk(w'.threads, w'.counters, w'.past)
  {
    var w' := PeakStep(w, i, false);
    var n := |w.past.raises|;
    assert ViewOk(i, w.threads[i], w.past, w.counters.peak);
    assert w'.past.raises[..n] == w.past.raises;
    assert forall k: nat :: k <= n ==> PeakAt(w'.past.raises, k) == PeakAt(w.past.raises, k);
    assert PeakAt(w'.past.raises, n + 1) == w.threads[i].mine;
    forall j | 0 <= j < |w.threads| ensures ViewOk(j, w'.threads[j], w'.past, w'.counters.peak) {
      assert ViewOk(j, w.threads[j], w.past, w.counters.peak);
    }
    HighStays(w.threads, i, w'.threads[i], w'.threads, w.past.high, w'.counters.peak);
  }

  /** A lost exchange: a genuine one means that another thread has raised the peak since the last look. */
  lemma PeakOnFailure(w: World, i: nat, spurious: bool)
    requires PeakOk(w.threads, w.counters, w.past) && i < |w.threads| && w.threads[i].PeakLoaded?
    requires w.threads[i].mine > w.threads[i].seen && (spurious || w.threads[i].seen != w.counters.peak)
    ensures var w' := PeakStep(w, i, spurious); PeakOk(w'.threads, w'.counters, w'.past)
  {
    hide PeakAt;
    var w' := PeakStep(w, i, spurious);
    assert ViewOk(i, w.threads[i], w.past, w.counters.peak);
    forall j | 0 <= j < |w.threads| ensures ViewOk(j, w'.threads[j], w'.past, w'.counters.peak) {
      assert ViewOk(j, w.threads[j], w.past, w.counters.peak);
    }
    HighStays(w.threads, i, w'.threads[i], w'.threads, w.past.high, w.counters.peak);
  }

  // ---------- allocation ids

  /** The id of an allocation under way. */
  function IdOf(pc: Pc): Option<nat> {
    match pc
    case Idle => None
    case Drawn(id, _) => Some(id)
    case Placed(r) => Some(r.allocationId)
    case TotalAdded(r) => Some(r.allocationId)
    case CountAdded(r) => Some(r.allocationId)
    case ActiveAdded(r) => Some(r.allocationId)
    case CurrentAdded(r, _) => Some(r.allocationId)
    case PeakLoaded(r, _, _, _, _, _) => Some(r.allocationId)
    case Counted(r, _) => Some(r.allocationId)
    case _ => None
  }

  function Issued(recs: Table, threads: seq<Pc>, a: Slot): Option<nat> {
    match a
    case Kept(p) => if p in recs then Some(recs[p].allocationId) else None
    case Held(i) => if i < |threads| then IdOf(threads[i]) else None
  }

  /** Until the id counter wraps, no id is issued twice, and none comes back after its record was erased. */
  ghost predicate IdsOk(recs: Table, threads: seq<Pc>, nextId: nat, past: Past) {
    past.drawn < W64 - 1 ==>
      && nextId == past.drawn + 1
      && (forall a :: Issued(recs, threads, a).Some? ==>
            Issued(recs, threads, a).value < nextId && Issued(recs, threads, a).value !in past.retired)
      && (forall a, b :: a != b && Issued(recs, threads, a).Some? && Issued(recs, threads, b).Some? ==>
            Issued(recs, threads, a).value != Issued(recs, threads, b).value)
      && (forall id :: id in past.retired ==> id < nextId)
  }

  lemma IdsSame(recs: Table, threads: seq<Pc>, nextId: nat, past: Past, past': Past, i: nat, pc: Pc)
    requires IdsOk(recs, threads, nextId, past) && i < |threads|
    requires IdOf(pc) == IdOf(threads[i]) || IdOf(pc) == None
    requires past'.drawn == past.drawn && past'.retired == past.retired
    ensures IdsOk(recs, threads[i := pc], nextId, past')
  {
    hide IdOf;
    var threads' := threads[i := pc];
    assert forall a :: a != Held(i) ==> Issued(recs, threads', a) == Issued(recs, threads, a);
    assert Issued(recs, threads', Held(i)) == IdOf(pc);
    assert Issued(recs, threads, Held(i)) == IdOf(threads[i]);
  }

  lemma IdsDraw(recs: Table, threads: seq<Pc>, nextId: nat, past: Past, i: nat, q: Request)
    requires IdsOk(recs, threads, nextId, past) && i < |threads|
    ensures IdsOk(recs, threads[i := Drawn(nextId, q)], Wrap(nextId + 1), past.(drawn := past.drawn + 1))
  {
    hide IdOf;
    var threads' := threads[i := Drawn(nextId, q)];
    assert forall a :: a != Held(i) ==> Issued(recs, threads', a) == Issued(recs, threads, a);
    assert Issued(recs, threads', Held(i)) == Some(nextId) by { IdOfDrawn(nextId, q); }
  }

  lemma IdOfDrawn(id: nat, q: Request)
    ensures IdOf(Drawn(id, q)) == Some(id)
  {
  }

  lemma IdsInsert(recs: Table, threads: seq<Pc>, nextId: nat, past: Past, i: nat, r: Record)
    requires IdsOk(recs, threads, nextId, past) && i < |threads| && threads[i].Counted? && threads[i].r == r
    requires r.userPtr !in recs
    ensures IdsOk(recs[r.userPtr := r], threads[i := Idle], nextId, past)
  {
    var recs', threads' := recs[r.userPtr := r], threads[i := Idle];
    assert forall a :: a != Held(i) && a != Kept(r.userPtr) ==> Issued(recs', threads', a) == Issued(recs, threads, a);
    assert Issued(recs', threads', Held(i)) == None && Issued(recs, threads, Kept(r.userPtr)) == None;
    assert Issued(recs', threads', Kept(r.userPtr)) == Issued(recs, threads, Held(i));
  }

  lemma IdsErase(recs: Table, threads: seq<Pc>, nextId: nat, past: Past, i: nat, p: nat)
    requires IdsOk(recs, threads, nextId, past) && i < |threads| && p in recs
    ensures IdsOk(recs - {p}, threads[i := Erased(recs[p])], nextId,
                  past.(retired := past.retired + {recs[p].allocationId}))
  {
    var recs', threads' := recs - {p}, threads[i := Erased(recs[p])];
    assert forall a :: a != Held(i) && a != Kept(p) ==> Issued(recs', threads', a) == Issued(recs, threads, a);
    assert Issued(recs', threads', Held(i)) == None && Issued(recs', threads', Kept(p)) == None;
    assert Issued(recs, threads, Kept(p)) == Some(recs[p].allocationId);
  }

  // ---------- mallocs and frees

  /** Every block handed out was released once, or is outstanding. */
  ghost predicate Matched(live: map<nat, nat>, past: Past) {
    forall raw: nat :: past.mallocs[raw] == past.releases[raw] + if raw in live then 1 else 0
  }

  // ---------- plain blocks

  /** Plain blocks are no retained ones, and those being freed are freed by one thread each. */
  ghost predicate PlainOk(plain: set<nat>, threads: seq<Pc>, retained: set<nat>) {
    && plain !! retained
    && (forall i :: 0 <= i < |threads| && threads[i].Unknown? ==> threads[i].p in plain)
    && (forall i, j :: 0 <= i < j < |threads| && threads[i].Unknown? && threads[j].Unknown? ==>
          threads[i].p != threads[j].p)
  }

  lemma PlainSame(plain: set<nat>, threads: seq<Pc>, retained: set<nat>, i: nat, pc: Pc)
    requires PlainOk(plain, threads, retained) && i < |threads| && !pc.Unknown?
    ensures PlainOk(plain, threads[i := pc], retained)
  {
  }

  /** The outstanding blocks that neither a record nor a thread accounts for. */
  ghost function Loose(w: World): set<nat> { w.past.retained + w.plain }

  // ---------- all of it

  ghost predicate Inv(g: Setting, w: World) {
    && g.limit < W64 && TrackerSpec.Valid(w.shards) && LiveOk(w.live, g.limit)
    && Ownership(Flat(w.shards), w.threads, w.live, Loose(w))
    && PlainOk(w.plain, w.threads, w.past.retained)
    && Accounts(Flat(w.shards), w.threads, w.counters)
    && PeakOk(w.threads, w.counters, w.past)
    && IdsOk(Flat(w.shards), w.threads, w.nextId, w.past)
    && Matched(w.live, w.past)
  }

  lemma {:induction false} NothingInFlight(k: Measure, threads: seq<Pc>)
    requires forall i :: 0 <= i < |threads| ==> threads[i].Idle?
    ensures InFlight(k, threads) == 0
  {
    if threads != [] { NothingInFlight(k, threads[..|threads| - 1]); }
  }

  lemma NobodyOwns(threads: seq<Pc>, past: Past)
    requires forall i :: 0 <= i < |threads| ==> threads[i].Idle?
    requires past.drawn == 0 && past.retired == {}
    ensures Ownership(map[], threads, map[], {}) && IdsOk(map[], threads, 1, past)
  {
    assert forall a :: Owned(map[], threads, a) == None && Issued(map[], threads, a) == None;
  }

  lemma PeakAtRest(threads: seq<Pc>, past: Past)
    requires forall i :: 0 <= i < |threads| ==> threads[i].Idle?
    requires past.high == past.completed == 0 && past.raises == []
    ensures PeakOk(threads, ZERO, past)
  {
  }

  lemma AccountsAtRest(threads: seq<Pc>)
    requires forall i :: 0 <= i < |threads| ==> threads[i].Idle?
    ensures Accounts(map[], threads, ZERO)
  {
    hide InFlight;
    forall k ensures InFlight(k, threads) == 0 { NothingInFlight(k, threads); }
  }

  lemma BeginIsGood(g: Setting, threads: nat)
    requires g.limit < W64
    ensures Inv(g, Begin(threads))
  {
    hide ShardIndex, Flat, ShardValid, Empty, Ownership, IdsOk, PeakOk, Accounts;
    EmptyIsValid();
    var w := Begin(threads);
    assert Loose(w) == {};
    NobodyOwns(w.threads, w.past);
    PeakAtRest(w.threads, w.past);
    AccountsAtRest(w.threads);
  }

  /** What is counted is below 2^64, before and after a step that leaves the owners alone. */
  lemma NoWrap(recs: Table, threads: seq<Pc>, live: map<nat, nat>, limit: nat)
    requires Claims(recs, threads, live) && LiveOk(live, limit) && limit < W64
    ensures SumRequested(recs) + InFlight(Bytes, threads) < W64
    ensures |recs| + InFlight(Blocks, threads) < W64
  {
    hide Claims, SumRequested, InFlight;
    CountedFits(recs, threads, live);
    TotalInMemory(live, limit);
  }

  // ---------- steps

  /** Steps that leave the records, the blocks and every owner alone. */
  predicate Quiet(pc: Pc, a: Act) {
    match pc
    case Idle => a.AllocAct?
    case Drawn(_, _) => false
    case Counted(_, _) => false
    case CurrentTaken(_, _) => false
    case Unknown(_) => false
    case _ => true
  }

  lemma WrapLess(a: int, b: int)
    ensures Wrap(Wrap(a) - b) == Wrap(a - b)
  {
    WrapAbsorbs(a, -b);
  }

  /** The peak loop touches no more than the peak, its own record of the past and the thread. */
  lemma PeakStepRest(w: World, i: nat, spurious: bool)
    requires i < |w.threads| && w.threads[i].PeakLoaded?
    ensures var w' := PeakStep(w, i, spurious);
      && w'.shards == w.shards && w'.live == w.live && w'.plain == w.plain && w'.nextId == w.nextId
      && w'.past == w.past.(raises := w'.past.raises, completed := w'.past.completed)
      && w'.counters == w.counters.(peak := w'.counters.peak)
      && i < |w'.threads| && w'.threads == w.threads[i := w'.threads[i]]
      && (w'.threads[i].PeakLoaded? || w'.threads[i].Counted?) && w'.threads[i].r == w.threads[i].r
  {
  }

  lemma QuietRest(g: Setting, w: World, i: nat, a: Act)
    requires Shaped(w.shards) && Enabled(g, w, i, a) && Quiet(w.threads[i], a)
    ensures var w' := Next(g, w, i, a);
      && w'.shards == w.shards && w'.live == w.live && w'.past.retained == w.past.retained
      && w'.past.retired == w.past.retired && w'.past.mallocs == w.past.mallocs && w'.past.releases == w.past.releases
      && w'.plain == w.plain && i < |w'.threads| && w'.threads == w.threads[i := w'.threads[i]]
      && !w.threads[i].Unknown? && !w'.threads[i].Unknown?
      && Holding(w'.threads[i]) == Holding(w.threads[i])
  {
    hide PeakStep, PlainStep, PlainFreeStep, MayFree, Take, EraseStep, ReleaseStep, Insert, Flat, Sane, Wrap,
      Quarantined;
    if w.threads[i].PeakLoaded? { PeakStepRest(w, i, a.SpuriousAct?); }
  }

  lemma QuietFollows(g: Setting, w: World, i: nat, a: Act)
    requires Shaped(w.shards) && Enabled(g, w, i, a) && Quiet(w.threads[i], a)
    requires w.counters.current < W64 && w.counters.active < W64
    ensures var w' := Next(g, w, i, a);
      i < |w'.threads| && CountersFollow(w.counters, w'.counters, w.threads[i], w'.threads[i])
  {
    hide PlainStep, PlainFreeStep, MayFree, Take, EraseStep, ReleaseStep, Insert, Flat, Sane, Wrap, Quarantined, Weight;
    QuietRest(g, w, i, a);
    QuietChange(g, w, i, a, Bytes);
    QuietChange(g, w, i, a, Blocks);
    QuietChange(g, w, i, a, AllBytes);
    QuietChange(g, w, i, a, AllBlocks);
    QuietCounters(g, w, i, a);
    var s := w.counters;
    WrapSmall(s.current);
    WrapSmall(s.active);
    if Holding(w.threads[i]).Some? {
      var n := w.threads[i].r.requested;
      WrapLess(s.totalAllocated + n, s.totalFreed);
      WrapLess(s.allocations + 1, s.frees);
      WrapOfNegation(s.totalFreed + n, s.totalAllocated);
      WrapOfNegation(s.frees + 1, s.allocations);
    }
  }

  /** What a quiet step adds to each measure. */
  function QuietDelta(k: Measure, pc: Pc): int {
    match pc
    case Placed(r) => if k.AllBytes? then r.requested else 0
    case TotalAdded(_) => if k.AllBlocks? then 1 else 0
    case CountAdded(_) => if k.Blocks? then 1 else 0
    case ActiveAdded(r) => if k.Bytes? then r.requested else 0
    case Checked(r, _) => if k.AllBytes? then -(r.requested as int) else 0
    case FreedAdded(_, _) => if k.AllBlocks? then -1 else 0
    case FreesAdded(_, _) => if k.Blocks? then -1 else 0
    case ActiveTaken(r, _) => if k.Bytes? then -(r.requested as int) else 0
    case _ => 0
  }

  lemma QuietChange(g: Setting, w: World, i: nat, a: Act, k: Measure)
    requires Shaped(w.shards) && Enabled(g, w, i, a) && Quiet(w.threads[i], a)
    ensures i < |Next(g, w, i, a).threads|
    ensures Change(k, w.threads[i], Next(g, w, i, a).threads[i]) == QuietDelta(k, w.threads[i])
  {
    hide PeakStep, PlainStep, PlainFreeStep, MayFree, Take, EraseStep, ReleaseStep, Insert, Flat, Sane, Wrap,
      Quarantined;
    if w.threads[i].PeakLoaded? { PeakStepRest(w, i, a.SpuriousAct?); }
  }

  lemma QuietCounters(g: Setting, w: World, i: nat, a: Act)
    requires Shaped(w.shards) && Enabled(g, w, i, a) && Quiet(w.threads[i], a)
    ensures var s, pc := w.counters, w.threads[i];
      var s' := Next(g, w, i, a).counters;
      && s'.current == (if QuietDelta(Bytes, pc) == 0 && !pc.ActiveAdded? && !pc.ActiveTaken? then s.current
                        else Wrap(s.current + QuietDelta(Bytes, pc)))
      && s'.active == (if QuietDelta(Blocks, pc) == 0 then s.active else Wrap(s.active + QuietDelta(Blocks, pc)))
      && s'.totalAllocated == (if pc.Placed? then Wrap(s.totalAllocated + pc.r.requested) else s.totalAllocated)
      && s'.totalFreed == (if pc.Checked? then Wrap(s.totalFreed + pc.r.requested) else s.totalFreed)
      && s'.allocations == (if pc.TotalAdded? then Wrap(s.allocations + 1) else s.allocations)
      && s'.frees == (if pc.FreedAdded? then Wrap(s.frees + 1) else s.frees)
  {
    hide PeakStep, PlainStep, PlainFreeStep, MayFree, Take, EraseStep, ReleaseStep, Insert, Flat, Sane, Wrap,
      Quarantined, Weight;
    if w.threads[i].PeakLoaded? { PeakStepRest(w, i, a.SpuriousAct?); }
  }

  lemma QuietPeak(g: Setting, w: World, i: nat, a: Act)
    requires Shaped(w.shards) && Enabled(g, w, i, a) && Quiet(w.threads[i], a)
    requires PeakOk(w.threads, w.counters, w.past)
    requires w.threads[i].ActiveTaken? ==> w.threads[i].r.requested <= w.counters.current < W64
    ensures var w' := Next(g, w, i, a); PeakOk(w'.threads, w'.counters, w'.past)
  {
    hide PeakOk, Flat, Sane, Wrap, Quarantined;
    var pc, s, past := w.threads[i], w.counters, w.past;
    var w' := Next(g, w, i, a);
    if pc.ActiveAdded? {
      PeakOnAdd(w, i, pc.r, Wrap(s.current + pc.r.requested));
    } else if pc.CurrentAdded? {
      PeakOnLoad(w, i, pc.r, pc.mine);
    } else if pc.PeakLoaded? {
      if pc.mine <= pc.seen { PeakOnLeave(w, i); }
      else if s.peak == pc.seen && a.GoAct? { PeakOnRaise(w, i); }
      else { PeakOnFailure(w, i, a.SpuriousAct?); }
    } else {
      if pc.ActiveTaken? {
        WrapSmall(s.current - pc.r.requested);
        CurrentBelowHigh(w);
      }
      PeakUntouched(w.threads, s, w'.counters, past, w'.past, i, w'.threads[i]);
    }
  }

  lemma CurrentBelowHigh(w: World)
    requires PeakOk(w.threads, w.counters, w.past)
    ensures w.counters.current <= w.past.high
  {
  }

  lemma QuietIds(g: Setting, w: World, i: nat, a: Act)
    requires Shaped(w.shards) && Enabled(g, w, i, a) && Quiet(w.threads[i], a)
    requires IdsOk(Flat(w.shards), w.threads, w.nextId, w.past)
    ensures var w' := Next(g, w, i, a); IdsOk(Flat(w.shards), w'.threads, w'.nextId, w'.past)
  {
    hide PeakStep, PlainStep, PlainFreeStep, MayFree, Take, EraseStep, ReleaseStep, Insert, IdsOk, Flat, Sane, Wrap,
      Quarantined;
    if w.threads[i].PeakLoaded? { PeakStepRest(w, i, a.SpuriousAct?); }
    var w' := Next(g, w, i, a);
    if w.threads[i].Idle? {
      IdsDraw(Flat(w.shards), w.threads, w.nextId, w.past, i, a.q);
    } else {
      IdsSame(Flat(w.shards), w.threads, w.nextId, w.past, w'.past, i, w'.threads[i]);
    }
  }

  lemma CountedIsBelow(g: Setting, w: World)
    requires Inv(g, w)
    ensures w.counters.current < W64 && w.counters.active < W64
    ensures w.counters.current == SumRequested(Flat(w.shards)) + InFlight(Bytes, w.threads)
    ensures w.counters.active == |Flat(w.shards)| + InFlight(Blocks, w.threads)
  {
    hide Flat, ShardValid, ShardIndex, LiveOk, PeakOk, IdsOk, Matched, SumRequested, InFlight, Claims;
    NoWrap(Flat(w.shards), w.threads, w.live, g.limit);
  }

  lemma {:induction false} WeightInFlight(k: Measure, threads: seq<Pc>, i: nat)
    requires i < |threads|
    ensures Weight(k, threads[i]) <= InFlight(k, threads)
  {
    hide Weight;
    if i < |threads| - 1 { WeightInFlight(k, threads[..|threads| - 1], i); }
  }

  /** The counter holds at least what a thread is about to subtract from it. */
  lemma SubtractionsAreCovered(g: Setting, w: World, i: nat)
    requires Inv(g, w) && i < |w.threads|
    ensures w.threads[i].ActiveTaken? ==> w.threads[i].r.requested <= w.counters.current < W64
    ensures w.threads[i].FreesAdded? ==> 1 <= w.counters.active < W64
  {
    hide Inv, SumRequested, InFlight, Flat;
    CountedIsBelow(g, w);
    WeightInFlight(Bytes, w.threads, i);
    WeightInFlight(Blocks, w.threads, i);
  }

  lemma QuietKeeps(g: Setting, w: World, i: nat, a: Act)
    requires Inv(g, w) && Enabled(g, w, i, a) && Quiet(w.threads[i], a)
    ensures Inv(g, Next(g, w, i, a))
  {
    hide Flat, ShardValid, ShardIndex, LiveOk, PeakOk, IdsOk, SumRequested, InFlight, Claims, Quiet, Next, Accounts,
      Ownership, CountersFollow, Holding, Sane, Quarantined, MayFree, PlainOk;
    QuietRest(g, w, i, a);
    var recs := Flat(w.shards);
    var w' := Next(g, w, i, a);
    CountedIsBelow(g, w);
    SubtractionsAreCovered(g, w, i);
    QuietFollows(g, w, i, a);
    QuietPeak(g, w, i, a);
    QuietIds(g, w, i, a);
    PlainSame(w.plain, w.threads, w.past.retained, i, w'.threads[i]);
    SameOwners(recs, w.threads, w.live, Loose(w), i, w'.threads[i]);
    ClaimsOf(recs, w'.threads, w.live, Loose(w));
    NoWrap(recs, w'.threads, w.live, g.limit);
    AccountsFollow(recs, w.threads, w.counters, w'.counters, i, w'.threads[i]);
  }

  lemma ClaimsOf(recs: Table, threads: seq<Pc>, live: map<nat, nat>, loose: set<nat>)
    requires Ownership(recs, threads, live, loose)
    ensures Claims(recs, threads, live)
  {
    hide Claims, Owns;
  }

  lemma TakeKeeps(g: Setting, w: World, i: nat, choice: nat)
    requires Inv(g, w) && Enabled(g, w, i, MallocAct(choice)) && w.threads[i].Drawn?
    ensures Inv(g, Next(g, w, i, MallocAct(choice)))
  {
    hide Flat, ShardValid, ShardIndex, LiveOk, PeakOk, IdsOk, SumRequested, InFlight, Accounts, Ownership,
      RecordFor, Sane, CanGive, CalculateTotalSize, PlainOk, MayFree;
    var recs, pc := Flat(w.shards), w.threads[i];
    var w' := Next(g, w, i, MallocAct(choice));
    CountedIsBelow(g, w);
    PlainSame(w.plain, w.threads, w.past.retained, i, w'.threads[i]);
    CountersStay(w.counters, pc, w'.threads[i]);
    IdsAfterTake(g, w, i, choice);
    PeakUntouched(w.threads, w.counters, w.counters, w.past, w'.past, i, w'.threads[i]);
    if w'.threads[i].Idle? {
      SameOwners(recs, w.threads, w.live, Loose(w), i, Idle);
    } else {
      BlockFits(g, w, pc.id, pc.q, choice);
      FreshBlock(w.live, g.limit, choice, TotalFor(g, pc.q));
      NewOwner(recs, w.threads, w.live, Loose(w), i, w'.threads[i], TotalFor(g, pc.q));
    }
    ClaimsOf(recs, w'.threads, w'.live, Loose(w'));
    NoWrap(recs, w'.threads, w'.live, g.limit);
    AccountsFollow(recs, w.threads, w.counters, w.counters, i, w'.threads[i]);
  }

  lemma IdsAfterTake(g: Setting, w: World, i: nat, choice: nat)
    requires Inv(g, w) && Enabled(g, w, i, MallocAct(choice)) && w.threads[i].Drawn?
    ensures var w' := Next(g, w, i, MallocAct(choice)); IdsOk(Flat(w.shards), w'.threads, w'.nextId, w'.past)
  {
    hide Flat, ShardValid, ShardIndex, LiveOk, PeakOk, IdsOk, Accounts, Ownership, Sane, CanGive,
      CalculateTotalSize, RecordFor, Matched;
    var pc := w.threads[i];
    var w' := Next(g, w, i, MallocAct(choice));
    if !w'.threads[i].Idle? { BlockFits(g, w, pc.id, pc.q, choice); }
    IdsSame(Flat(w.shards), w.threads, w.nextId, w.past, w'.past, i, w'.threads[i]);
  }

  lemma FreshBlock(live: map<nat, nat>, limit: nat, choice: nat, total: nat)
    requires LiveOk(live, limit) && CanGive(live, limit, choice, total)
    ensures choice !in live && LiveOk(live[choice := total], limit)
  {
    MallocKeeps(live, limit, total, choice);
  }

  lemma InsertKeeps(g: Setting, w: World, i: nat)
    requires Inv(g, w) && i < |w.threads| && w.threads[i].Counted?
    ensures Enabled(g, w, i, GoAct) && Inv(g, Next(g, w, i, GoAct))
  {
    hide Flat, ShardValid, LiveOk, PeakOk, IdsOk, SumRequested, InFlight, Accounts, Ownership, ShardIndex, Insert,
      PlainOk;
    var recs, r := Flat(w.shards), w.threads[i].r;
    var w' := Next(g, w, i, GoAct);
    InsertIsFresh(recs, w.threads, w.live, Loose(w), g.limit, i, r);
    InsertRefines(w.shards, r.userPtr, r);
    OwnerInserted(recs, w.threads, w.live, Loose(w), i, r);
    AccountsInsert(recs, w.threads, w.counters, i, r);
    IdsInsert(recs, w.threads, w.nextId, w.past, i, r);
    PlainSame(w.plain, w.threads, w.past.retained, i, Idle);
    PeakUntouched(w.threads, w.counters, w.counters, w.past, w.past, i, Idle);
  }

  /** A step that changes no counter and leaves records and owners alone. */
  lemma Uncounted(recs: Table, w: World, live': map<nat, nat>, loose': set<nat>, limit: nat, past': Past, i: nat,
                  pc: Pc)
    requires Accounts(recs, w.threads, w.counters) && w.counters.current < W64 && w.counters.active < W64
    requires PeakOk(w.threads, w.counters, w.past) && IdsOk(recs, w.threads, w.nextId, w.past)
    requires i < |w.threads| && Weightless(w.threads[i]) && Weightless(pc) && IdOf(pc) == None
    requires Ownership(recs, w.threads[i := pc], live', loose') && LiveOk(live', limit) && limit < W64
    requires past'.high == w.past.high && past'.raises == w.past.raises && past'.completed == w.past.completed
    requires past'.drawn == w.past.drawn && past'.retired == w.past.retired
    ensures var threads' := w.threads[i := pc];
      && Accounts(recs, threads', w.counters) && PeakOk(threads', w.counters, past')
      && IdsOk(recs, threads', w.nextId, past')
  {
    hide LiveOk, PeakOk, IdsOk, SumRequested, InFlight, Accounts, Ownership, IdOf;
    CountersStay(w.counters, w.threads[i], pc);
    PeakUntouched(w.threads, w.counters, w.counters, w.past, past', i, pc);
    ClaimsOf(recs, w.threads[i := pc], live', loose');
    NoWrap(recs, w.threads[i := pc], live', limit);
    AccountsFollow(recs, w.threads, w.counters, w.counters, i, pc);
    IdsSame(recs, w.threads, w.nextId, w.past, past', i, pc);
  }

  predicate Weightless(pc: Pc) { pc.Idle? || pc.Drawn? || pc.Unknown? || pc.CurrentTaken? }

  lemma PlainKeeps(g: Setting, w: World, i: nat, size: nat, choice: nat)
    requires Inv(g, w) && Enabled(g, w, i, PlainAct(size, choice)) && (w.threads[i].Idle? || w.threads[i].Drawn?)
    ensures Inv(g, Next(g, w, i, PlainAct(size, choice)))
  {
    hide Flat, ShardValid, ShardIndex, LiveOk, PeakOk, IdsOk, Accounts, Ownership, CanGive, Sane, Quarantined, PlainOk;
    var recs := Flat(w.shards);
    var w' := Next(g, w, i, PlainAct(size, choice));
    CountedIsBelow(g, w);
    SameOwners(recs, w.threads, w.live, Loose(w), i, Idle);
    PlainSame(w.plain, w.threads, w.past.retained, i, Idle);
    if CanGive(w.live, g.limit, choice, size) {
      FreshBlock(w.live, g.limit, choice, size);
      LooseAdded(recs, w.threads[i := Idle], w.live, Loose(w), choice, size);
      assert Loose(w') == Loose(w) + {choice};
      LooseIsLive(recs, w.threads, w.live, Loose(w));
      PlainGrows(w.plain, w.threads[i := Idle], w.past.retained, choice);
    }
    Uncounted(recs, w, w'.live, Loose(w'), g.limit, w'.past, i, Idle);
  }

  lemma LooseIsLive(recs: Table, threads: seq<Pc>, live: map<nat, nat>, loose: set<nat>)
    requires Ownership(recs, threads, live, loose)
    ensures forall raw :: raw in loose ==> raw in live
  {
    hide Claims, Owns;
  }

  lemma PlainGrows(plain: set<nat>, threads: seq<Pc>, retained: set<nat>, raw: nat)
    requires PlainOk(plain, threads, retained) && raw !in retained
    ensures PlainOk(plain + {raw}, threads, retained)
  {
  }

  lemma EraseKeeps(g: Setting, w: World, i: nat, p: nat)
    requires Inv(g, w) && Enabled(g, w, i, FreeAct(p)) && w.threads[i].Idle?
    ensures Inv(g, Next(g, w, i, FreeAct(p)))
  {
    hide Flat, ShardValid, LiveOk, PeakOk, IdsOk, SumRequested, InFlight, Accounts, Ownership, ShardIndex, Erase,
      Quarantined, StatusOf, PlainOk;
    var recs := Flat(w.shards);
    var w' := Next(g, w, i, FreeAct(p));
    EraseRefines(w.shards, p);
    if p == 0 || StatusOf(w.shards, p) == DoubleFreeDetected {
      assert w.threads[i := Idle] == w.threads;
    } else if p in recs {
      PlainSame(w.plain, w.threads, w.past.retained, i, w'.threads[i]);
      PeakUntouched(w.threads, w.counters, w.counters, w.past, w'.past, i, w'.threads[i]);
      OwnerErased(recs, w.threads, w.live, Loose(w), i, p);
      AccountsErase(recs, w.threads, w.counters, i, p);
      IdsErase(recs, w.threads, w.nextId, w.past, i, p);
    } else {
      HandOverKeeps(g, w, i, p);
    }
  }

  /** A thread is about to free a plain block itself. */
  lemma HandOverKeeps(g: Setting, w: World, i: nat, p: nat)
    requires Inv(g, w) && i < |w.threads| && w.threads[i].Idle? && PlainFree(w, p)
    ensures Inv(g, Concurrent.At(w, i, Unknown(p)))
  {
    hide Flat, ShardValid, ShardIndex, LiveOk, PeakOk, IdsOk, Accounts, Ownership, PlainOk;
    var recs := Flat(w.shards);
    CountedIsBelow(g, w);
    SameOwners(recs, w.threads, w.live, Loose(w), i, Unknown(p));
    PlainTaken(w.plain, w.threads, w.past.retained, i, p);
    Uncounted(recs, w, w.live, Loose(w), g.limit, w.past, i, Unknown(p));
  }

  /** A thread starts to free a plain block that no other thread is freeing. */
  lemma PlainTaken(plain: set<nat>, threads: seq<Pc>, retained: set<nat>, i: nat, p: nat)
    requires PlainOk(plain, threads, retained) && i < |threads| && p in plain
    requires forall j :: 0 <= j < |threads| ==> threads[j] != Unknown(p)
    ensures PlainOk(plain, threads[i := Unknown(p)], retained)
  {
  }

  lemma PlainFreeKeeps(g: Setting, w: World, i: nat)
    requires Inv(g, w) && i < |w.threads| && w.threads[i].Unknown?
    ensures Enabled(g, w, i, GoAct) && Inv(g, Next(g, w, i, GoAct))
  {
    hide Flat, ShardValid, ShardIndex, LiveOk, PeakOk, IdsOk, Accounts, Ownership, PlainOk;
    var recs, p := Flat(w.shards), w.threads[i].p;
    var w' := Next(g, w, i, GoAct);
    CountedIsBelow(g, w);
    PlainGiven(w.plain, w.threads, w.past.retained, i);
    SameOwners(recs, w.threads, w.live, Loose(w), i, Idle);
    LooseGone(recs, w.threads[i := Idle], w.live, Loose(w), p);
    assert Loose(w') == Loose(w) - {p};
    LessLive(w.live, g.limit, p);
    Uncounted(recs, w, w'.live, Loose(w'), g.limit, w'.past, i, Idle);
  }

  /** What a thread at `Unknown` frees is a plain block, and it alone frees it. */
  lemma PlainGiven(plain: set<nat>, threads: seq<Pc>, retained: set<nat>, i: nat)
    requires PlainOk(plain, threads, retained) && i < |threads| && threads[i].Unknown?
    ensures threads[i].p in plain && threads[i].p !in retained
    ensures PlainOk(plain - {threads[i].p}, threads[i := Idle], retained)
  {
  }

  lemma ReleaseKeeps(g: Setting, w: World, i: nat)
    requires Inv(g, w) && i < |w.threads| && w.threads[i].CurrentTaken?
    ensures Enabled(g, w, i, GoAct) && Inv(g, Next(g, w, i, GoAct))
  {
    hide Flat, ShardValid, LiveOk, PeakOk, IdsOk, SumRequested, InFlight, Accounts, Ownership, ShardIndex, PlainOk;
    var recs, r := Flat(w.shards), w.threads[i].r;
    var w' := Next(g, w, i, GoAct);
    CountedIsBelow(g, w);
    OwnerGone(recs, w.threads, w.live, Loose(w), i, r);
    assert Loose(w') == if w.threads[i].intact then Loose(w) else Loose(w) + {r.rawPtr};
    PlainSame(w.plain, w.threads, w.past.retained, i, Idle);
    RetainedGrows(w.plain, w'.threads, w.past.retained, r.rawPtr);
    LessLive(w.live, g.limit, r.rawPtr);
    Uncounted(recs, w, w'.live, Loose(w'), g.limit, w'.past, i, Idle);
  }

  lemma RetainedGrows(plain: set<nat>, threads: seq<Pc>, retained: set<nat>, raw: nat)
    requires PlainOk(plain, threads, retained) && raw !in plain
    ensures PlainOk(plain, threads, retained + {raw})
  {
  }

  lemma LessLive(live: map<nat, nat>, limit: nat, raw: nat)
    requires LiveOk(live, limit)
    ensures LiveOk(live - {raw}, limit)
  {
  }

  lemma GuardedFreeKeeps(g: Setting, w: World, i: nat, p: nat)
    requires Inv(g, w) && Enabled(g, w, i, GuardedFreeAct(p)) && w.threads[i].Idle?
    ensures Inv(g, Next(g, w, i, GuardedFreeAct(p)))
  {
    hide Inv, Flat, PlainFree;
    HandOverKeeps(g, w, i, p);
  }

  /** Every step of every thread keeps the invariant. */
  lemma StepKeeps(g: Setting, w: World, i: nat, a: Act)
    requires Inv(g, w) && Enabled(g, w, i, a)
    ensures Inv(g, Next(g, w, i, a))
  {
    hide Inv, Next, Flat, Sane, MayFree;
    if Quiet(w.threads[i], a) {
      QuietKeeps(g, w, i, a);
    } else {
      match w.threads[i]
      case Idle =>
        if a.FreeAct? { EraseKeeps(g, w, i, a.p); }
        else if a.GuardedFreeAct? { GuardedFreeKeeps(g, w, i, a.p); }
        else { PlainKeeps(g, w, i, a.size, a.choice); }
      case Drawn(_, _) =>
        if a.MallocAct? { TakeKeeps(g, w, i, a.choice); } else { PlainKeeps(g, w, i, a.size, a.choice); }
      case Counted(_, _) => InsertKeeps(g, w, i);
      case CurrentTaken(_, _) => ReleaseKeeps(g, w, i);
      case Unknown(_) => PlainFreeKeeps(g, w, i);
    }
  }
}
