/**
 Whole runs of interleaved threads: what holds in every state that any schedule can reach, and what
 relates the states of one run to each other.
 */
module ConcurrentRuns {
  import opened Words
  import opened Wrappers
  import opened Records
  import opened TrackerSpec
  import opened Stats
  import opened SystemHeap
  import opened ManagerSpec
  import opened Concurrent
  import opened ConcurrentProofs

  datatype Move = Move(thread: nat, act: Act)

  /** `run` starts with nothing allocated, and each move leads from one world to the next. */
  ghost predicate IsRun(g: Setting, run: seq<World>, moves: seq<Move>) {
    && g.limit < W64 && |run| == |moves| + 1
    && run[0] == Begin(|run[0].threads|)
    && forall k :: 0 <= k < |moves| ==> Moves(g, run[k], moves[k], run[k + 1])
  }

  ghost predicate Moves(g: Setting, w: World, m: Move, w': World) {
    Shaped(w.shards) && Enabled(g, w, m.thread, m.act) && w' == Next(g, w, m.thread, m.act)
  }

  lemma {:induction false} RunIsGood(g: Setting, run: seq<World>, moves: seq<Move>, k: nat)
    requires IsRun(g, run, moves) && k < |run|
    ensures Inv(g, run[k])
  {
    hide Inv, Next, Enabled, Begin;
    if k == 0 {
      BeginIsGood(g, |run[0].threads|);
    } else {
      RunIsGood(g, run, moves, k - 1);
      assert Moves(g, run[k - 1], moves[k - 1], run[k]);
      StepKeeps(g, run[k - 1], moves[k - 1].thread, moves[k - 1].act);
    }
  }

  // ---------- one thread alone

  /** A plain step of thread `i`, if it can take one. */
  function Once(g: Setting, w: World, i: nat): (w': World)
    requires g.limit < W64 && Shaped(w.shards) && i < |w.threads|
    ensures Shaped(w'.shards) && i < |w'.threads|
  {
    if w.threads[i].Idle? || w.threads[i].Drawn? || w.threads[i].Erased? then w else Next(g, w, i, GoAct)
  }

  /** `n` plain steps of one thread, while no other thread moves. */
  function Alone(g: Setting, w: World, i: nat, n: nat): (w': World)
    requires g.limit < W64 && Shaped(w.shards) && i < |w.threads|
    ensures Shaped(w'.shards) && i < |w'.threads|
    decreases n
  {
    if n == 0 then w else Alone(g, Once(g, w, i), i, n - 1)
  }

  /** Without interference an allocation's update adds up to what the counters do for a single thread. */
  lemma AloneUpdatesOnAlloc(g: Setting, w: World, i: nat)
    requires g.limit < W64 && Shaped(w.shards) && i < |w.threads| && w.threads[i].Placed?
    ensures var w' := Alone(g, w, i, 6);
      w'.threads[i].Counted? && w'.counters == OnAlloc(w.counters, w.threads[i].r.requested)
  {
    hide Flat, Wrap, Quarantined, Take, EraseStep, ReleaseStep, Insert, Once;
    var w1 := OnceIs(g, w, i);
    var w2 := OnceIs(g, w1, i);
    var w3 := OnceIs(g, w2, i);
    var w4 := OnceIs(g, w3, i);
    var w5 := OnceIs(g, w4, i);
    var w6 := OnceIs(g, w5, i);
    assert Alone(g, w, i, 6) == Alone(g, w1, i, 5) == Alone(g, w2, i, 4) == Alone(g, w3, i, 3);
    assert Alone(g, w3, i, 3) == Alone(g, w4, i, 2) == Alone(g, w5, i, 1) == w6;
  }

  lemma AloneUpdatesOnFree(g: Setting, w: World, i: nat)
    requires g.limit < W64 && Shaped(w.shards) && i < |w.threads| && w.threads[i].Checked?
    ensures var w' := Alone(g, w, i, 4);
      w'.threads[i].CurrentTaken? && w'.counters == OnFree(w.counters, w.threads[i].r.requested)
  {
    hide Flat, Wrap, Quarantined, Take, EraseStep, ReleaseStep, Insert, Once;
    var w1 := OnceIs(g, w, i);
    var w2 := OnceIs(g, w1, i);
    var w3 := OnceIs(g, w2, i);
    var w4 := OnceIs(g, w3, i);
    assert Alone(g, w, i, 4) == Alone(g, w1, i, 3) == Alone(g, w2, i, 2) == Alone(g, w3, i, 1) == w4;
  }

  lemma OnceIs(g: Setting, w: World, i: nat) returns (w': World)
    requires g.limit < W64 && Shaped(w.shards) && i < |w.threads|
    requires !w.threads[i].Idle? && !w.threads[i].Drawn? && !w.threads[i].Erased?
    ensures Enabled(g, w, i, GoAct) && w' == Once(g, w, i) == Next(g, w, i, GoAct)
    ensures Shaped(w'.shards) && i < |w'.threads|
  {
    w' := Next(g, w, i, GoAct);
  }

  // ---------- the counters

  /**
   Under every interleaving the counters equal the tracker's contents plus what is in flight, so the
   contents never exceed them; the running totals agree with the same sums modulo 2^64.
   */
  lemma CountersAccountForRecords(g: Setting, run: seq<World>, moves: seq<Move>, k: nat)
    requires IsRun(g, run, moves) && k < |run|
    ensures var w := run[k]; var s := w.counters;
      && Shaped(w.shards)
      && s.current == SumRequested(Flat(w.shards)) + InFlight(Bytes, w.threads) < W64
      && s.active == |Flat(w.shards)| + InFlight(Blocks, w.threads) < W64
      && Wrap(s.totalAllocated - s.totalFreed) == Wrap(SumRequested(Flat(w.shards)) + InFlight(AllBytes, w.threads))
      && Wrap(s.allocations - s.frees) == Wrap(|Flat(w.shards)| + InFlight(AllBlocks, w.threads))
  {
    hide Flat, ShardValid, LiveOk, PeakOk, IdsOk, Matched, Ownership, SumRequested, InFlight, Wrap;
    RunIsGood(g, run, moves, k);
    CountedIsBelow(g, run[k]);
  }

  /** Neither subtraction ever underflows, and neither addition overflows. */
  lemma NoUnderflow(g: Setting, run: seq<World>, moves: seq<Move>, k: nat)
    requires IsRun(g, run, moves) && k < |moves|
    ensures var w, i := run[k], moves[k].thread; var s, s' := w.counters, run[k + 1].counters;
      && i < |w.threads|
      && (w.threads[i].ActiveAdded? ==> s'.current == s.current + w.threads[i].r.requested)
      && (w.threads[i].ActiveTaken? ==> s'.current == s.current - w.threads[i].r.requested)
      && (w.threads[i].CountAdded? ==> s'.active == s.active + 1)
      && (w.threads[i].FreesAdded? ==> s'.active == s.active - 1)
  {
    hide Flat, SumRequested, InFlight, Inv, Sane, Quarantined;
    RunIsGood(g, run, moves, k);
    RunIsGood(g, run, moves, k + 1);
    assert Moves(g, run[k], moves[k], run[k + 1]);
    var w, i := run[k], moves[k].thread;
    CountedIsBelow(g, w);
    SubtractionsAreCovered(g, w, i);
    AdditionsFit(g, w, i, moves[k].act);
  }

  lemma AdditionsFit(g: Setting, w: World, i: nat, a: Act)
    requires Inv(g, w) && Enabled(g, w, i, a)
    ensures w.threads[i].ActiveAdded? ==> w.counters.current + w.threads[i].r.requested < W64
    ensures w.threads[i].CountAdded? ==> w.counters.active + 1 < W64
  {
    hide Flat, ShardValid, LiveOk, PeakOk, IdsOk, Matched, SumRequested, InFlight, Wrap, Ownership;
    if w.threads[i].ActiveAdded? || w.threads[i].CountAdded? {
      var r := w.threads[i].r;
      var later := w.threads[i := Counted(r, 0)];
      SameOwners(Flat(w.shards), w.threads, w.live, Loose(w), i, Counted(r, 0));
      ClaimsOf(Flat(w.shards), later, w.live, Loose(w));
      NoWrap(Flat(w.shards), later, w.live, g.limit);
      InFlightUpdate(Bytes, w.threads, i, Counted(r, 0));
      InFlightUpdate(Blocks, w.threads, i, Counted(r, 0));
    }
  }

  /** Between calls the counters are the tracker's contents, and no outstanding block is unaccounted for. */
  lemma QuiescentStateIsExact(g: Setting, run: seq<World>, moves: seq<Move>, k: nat)
    requires IsRun(g, run, moves) && k < |run| && Quiescent(run[k])
    ensures var w := run[k]; var s := w.counters;
      && Shaped(w.shards)
      && s.current == SumRequested(Flat(w.shards)) && s.active == |Flat(w.shards)|
      && s.current == Wrap(s.totalAllocated - s.totalFreed) && s.active == Wrap(s.allocations - s.frees)
      && s.current <= s.peak
      && forall raw :: raw in w.live ==> raw in Loose(w) || exists p :: RecordedAt(w, p, raw)
  {
    hide Flat, ShardValid, LiveOk, IdsOk, Matched, SumRequested, InFlight, Wrap, Holding, ViewOk, PeakAt;
    var w := run[k];
    CountersAccountForRecords(g, run, moves, k);
    forall m ensures InFlight(m, w.threads) == 0 { NothingInFlight(m, w.threads); }
    WrapSmall(w.counters.current);
    WrapSmall(w.counters.active);
    RunIsGood(g, run, moves, k);
    assert forall i :: !HoldsHigh(w.threads, i, w.past.high);
    forall raw | raw in w.live && raw !in Loose(w) ensures exists p :: RecordedAt(w, p, raw) {
      var a :| Owns(Flat(w.shards), w.threads, a, raw);
      IdleHolds(w, a);
      assert RecordedAt(w, a.p, raw);
    }
  }

  lemma IdleHolds(w: World, a: Slot)
    requires Quiescent(w) && Shaped(w.shards) && Owned(Flat(w.shards), w.threads, a).Some?
    ensures a.Kept?
  {
    hide Flat;
  }

  /** The record at `p` is about the block at `raw`. */
  ghost predicate RecordedAt(w: World, p: nat, raw: nat)
    requires Shaped(w.shards)
  {
    p in Flat(w.shards) && Flat(w.shards)[p].rawPtr == raw
  }

  // ---------- the peak

  lemma HighGrows(g: Setting, w: World, m: Move, w': World)
    requires Moves(g, w, m, w')
    ensures w'.past.high == Max(w.past.high, w'.counters.current)
         || (w'.past.high == w.past.high && w'.counters.current == w.counters.current)
  {
    hide Flat, Sane, Quarantined, Wrap;
  }

  lemma {:induction false} HighIsMaximum(g: Setting, run: seq<World>, moves: seq<Move>, k: nat)
    requires IsRun(g, run, moves) && k < |run|
    ensures forall j :: 0 <= j <= k ==> run[j].counters.current <= run[k].past.high
    ensures exists j :: 0 <= j <= k && run[j].counters.current == run[k].past.high
  {
    hide Next, Enabled;
    if k == 0 {
      assert run[0].counters.current == run[0].past.high;
    } else {
      HighIsMaximum(g, run, moves, k - 1);
      assert Moves(g, run[k - 1], moves[k - 1], run[k]);
      HighGrows(g, run[k - 1], moves[k - 1], run[k]);
      var j :| 0 <= j <= k - 1 && run[j].counters.current == run[k - 1].past.high;
      assert run[if run[k].past.high == run[k - 1].past.high then j else k].counters.current == run[k].past.high;
    }
  }

  /** The peak never exceeds what `current` has been, and between calls it is the largest of all. */
  lemma PeakIsHistoricMaximum(g: Setting, run: seq<World>, moves: seq<Move>, k: nat)
    requires IsRun(g, run, moves) && k < |run|
    ensures exists j :: 0 <= j <= k && run[k].counters.peak <= run[j].counters.current
    ensures Quiescent(run[k]) ==>
      && (forall j :: 0 <= j <= k ==> run[j].counters.current <= run[k].counters.peak)
      && exists j :: 0 <= j <= k && run[j].counters.current == run[k].counters.peak
  {
    hide Flat, ShardValid, LiveOk, IdsOk, Matched, SumRequested, InFlight, ViewOk, PeakAt, IsRun, Ownership, Accounts;
    RunIsGood(g, run, moves, k);
    HighIsMaximum(g, run, moves, k);
    var w := run[k];
    assert Quiescent(w) ==> forall i :: !HoldsHigh(w.threads, i, w.past.high);
  }

  /** `current` is above the peak only while a thread that raised it is still in the peak loop. */
  lemma AbovePeakOnlyInTheLoop(g: Setting, run: seq<World>, moves: seq<Move>, k: nat)
    requires IsRun(g, run, moves) && k < |run| && run[k].counters.current > run[k].counters.peak
    ensures exists i :: 0 <= i < |run[k].threads| && RaisedTo(run[k].threads[i], run[k].counters.current)
  {
    hide Flat, ShardValid, LiveOk, IdsOk, Matched, SumRequested, InFlight, ViewOk, PeakAt, IsRun, Ownership, Accounts;
    RunIsGood(g, run, moves, k);
    var i :| HoldsHigh(run[k].threads, i, run[k].past.high);
    assert RaisedTo(run[k].threads[i], run[k].counters.current);
  }

  /** A thread in the peak loop that has seen `current` at `least` or above. */
  predicate RaisedTo(pc: Pc, least: nat) { Raising(pc) && pc.mine >= least }

  lemma PeakStepUp(g: Setting, w: World, m: Move)
    requires Inv(g, w) && Enabled(g, w, m.thread, m.act)
    ensures w.counters.peak <= Next(g, w, m.thread, m.act).counters.peak
  {
    hide Flat, ShardValid, LiveOk, IdsOk, Matched, Ownership, Accounts, Sane, Quarantined, Wrap;
    assert ViewOk(m.thread, w.threads[m.thread], w.past, w.counters.peak);
  }

  lemma {:induction false} PeakNeverFalls(g: Setting, run: seq<World>, moves: seq<Move>, j: nat, k: nat)
    requires IsRun(g, run, moves) && j <= k < |run|
    ensures run[j].counters.peak <= run[k].counters.peak
  {
    hide Next, Enabled, Inv, Begin;
    if j < k {
      PeakNeverFalls(g, run, moves, j, k - 1);
      RunIsGood(g, run, moves, k - 1);
      assert Moves(g, run[k - 1], moves[k - 1], run[k]);
      PeakStepUp(g, run[k - 1], moves[k - 1]);
    }
  }

  /** From the moment an update has returned, the peak is at least the `current` it produced. */
  lemma CompletedUpdatesAreInThePeak(g: Setting, run: seq<World>, moves: seq<Move>, j: nat, k: nat, i: nat)
    requires IsRun(g, run, moves) && j <= k < |run| && i < |run[j].threads| && run[j].threads[i].Counted?
    ensures run[j].threads[i].mine <= run[k].counters.peak
  {
    hide Flat, ShardValid, LiveOk, IdsOk, Matched, Ownership, Accounts, IsRun;
    PeakNeverFalls(g, run, moves, j, k);
    RunIsGood(g, run, moves, j);
    assert ViewOk(i, run[j].threads[i], run[j].past, run[j].counters.peak);
  }

  /**
   Of a thread in the peak loop: an exchange it is about to lose for cause, and each it has lost so
   far, has its own raise by another thread since the loop was entered.
   */
  lemma LostExchangesAreOthersRaises(g: Setting, run: seq<World>, moves: seq<Move>, k: nat, i: nat)
    requires IsRun(g, run, moves) && k < |run| && i < |run[k].threads| && run[k].threads[i].PeakLoaded?
    ensures var pc, raises := run[k].threads[i], run[k].past.raises;
      && pc.start <= pc.at <= |raises|
      && (forall n :: pc.start <= n < |raises| ==> raises[n].thread != i)
      && pc.failures <= pc.at - pc.start
      && (run[k].counters.peak != pc.seen <==> pc.at < |raises|)
  {
    hide Flat, ShardValid, LiveOk, IdsOk, Matched, Ownership, Accounts, IsRun;
    RunIsGood(g, run, moves, k);
    var w := run[k];
    assert ViewOk(i, w.threads[i], w.past, w.counters.peak);
    assert PeakAt(w.past.raises, w.threads[i].at) == w.threads[i].seen;
    assert w.counters.peak == PeakAt(w.past.raises, |w.past.raises|);
  }

  /**
   The history of the peak that the last claim rests on: a step in the peak loop either raises the peak
   in the thread's own name, or counts a failure exactly if the peak was not what the thread expected.
   */
  lemma LoopIsRecorded(g: Setting, w: World, i: nat, a: Act)
    requires Shaped(w.shards) && Enabled(g, w, i, a) && w.threads[i].PeakLoaded?
    ensures var w' := Next(g, w, i, a); var pc, pc' := w.threads[i], w'.threads[i];
      && (w'.counters.peak != w.counters.peak ==>
            w'.counters.peak == pc.mine && w'.past.raises == w.past.raises + [Raise(i, pc.mine)])
      && (w'.counters.peak == w.counters.peak && pc'.PeakLoaded? ==> w'.past.raises == w.past.raises)
      && (pc'.PeakLoaded? ==>
            && pc'.seen == w.counters.peak && pc'.at == |w.past.raises| && pc'.start == pc.start
            && pc'.failures == pc.failures + if w.counters.peak != pc.seen then 1 else 0)
      && (pc.mine > pc.seen && w.counters.peak == pc.seen && a.GoAct? ==>
            pc'.Counted? && w'.counters.peak == pc.mine)
      && (pc.mine <= pc.seen ==> pc'.Counted? && w'.counters.peak == w.counters.peak)
  {
    hide Flat, MayFree;
  }

  // ---------- conservation

  /** Thread `i` has the block at `raw` to itself. */
  ghost predicate HeldBy(w: World, i: nat, raw: nat) {
    i < |w.threads| && Holding(w.threads[i]).Some? && Holding(w.threads[i]).value.rawPtr == raw
  }

  /**
   Every outstanding block is recorded, in one thread's hands, plain, or retained after damage; it is
   never two of these.
   */
  lemma EveryBlockHasOneOwner(g: Setting, run: seq<World>, moves: seq<Move>, k: nat, raw: nat)
    requires IsRun(g, run, moves) && k < |run|
    ensures var w := run[k];
      && Shaped(w.shards)
      && (raw in w.live <==>
            || raw in w.past.retained || raw in w.plain
            || (exists p :: RecordedAt(w, p, raw)) || exists i :: HeldBy(w, i, raw))
      && !(raw in w.past.retained && raw in w.plain)
      && (raw in w.past.retained || raw in w.plain ==>
            (forall p :: !RecordedAt(w, p, raw)) && forall i :: !HeldBy(w, i, raw))
      && (forall p, i :: RecordedAt(w, p, raw) ==> !HeldBy(w, i, raw))
      && (forall p, q :: RecordedAt(w, p, raw) && RecordedAt(w, q, raw) ==> p == q)
      && (forall i, j :: HeldBy(w, i, raw) && HeldBy(w, j, raw) ==> i == j)
  {
    hide Flat, ShardValid, LiveOk, IdsOk, Matched, Accounts, PeakOk, Holding, IsRun;
    RunIsGood(g, run, moves, k);
    var w := run[k];
    var recs := Flat(w.shards);
    assert forall p :: RecordedAt(w, p, raw) <==> Owns(recs, w.threads, Kept(p), raw);
    assert forall i :: HeldBy(w, i, raw) <==> Owns(recs, w.threads, Held(i), raw);
    if raw in w.live && raw !in Loose(w) {
      var a :| Owns(recs, w.threads, a, raw);
      match a
      case Kept(p) => assert RecordedAt(w, p, raw);
      case Held(i) => assert HeldBy(w, i, raw);
    }
  }

  /** A plain block is being freed by at most one thread, and is then still outstanding. */
  lemma PlainBlocksAreFreedOnce(g: Setting, run: seq<World>, moves: seq<Move>, k: nat, i: nat, j: nat)
    requires IsRun(g, run, moves) && k < |run| && i < j < |run[k].threads|
    requires run[k].threads[i].Unknown?
    ensures run[k].threads[i].p in run[k].plain && run[k].threads[i].p in run[k].live
    ensures run[k].threads[j] != run[k].threads[i]
  {
    hide Flat, ShardValid, LiveOk, IdsOk, Matched, Accounts, PeakOk, Claims, IsRun;
    RunIsGood(g, run, moves, k);
    LooseIsLive(Flat(run[k].shards), run[k].threads, run[k].live, Loose(run[k]));
  }

  /** Every address was released as often as it was handed out, but for the one time it is outstanding now. */
  lemma ReleasesMatchMallocs(g: Setting, run: seq<World>, moves: seq<Move>, k: nat, raw: nat)
    requires IsRun(g, run, moves) && k < |run|
    ensures var w := run[k];
      w.past.mallocs[raw] == w.past.releases[raw] + if raw in w.live then 1 else 0
  {
    hide Flat, ShardValid, LiveOk, IdsOk, Accounts, PeakOk, Ownership, IsRun;
    RunIsGood(g, run, moves, k);
  }

  /** Freeing a quarantined pointer again is reported and changes nothing. */
  lemma FreeingAgainChangesNothing(g: Setting, w: World, i: nat, p: nat)
    requires Inv(g, w) && Enabled(g, w, i, FreeAct(p)) && w.threads[i].Idle?
    requires p == 0 || (p !in Flat(w.shards) && Quarantined(w.shards, p))
    ensures Next(g, w, i, FreeAct(p)) == w && (p != 0 ==> StatusOf(w.shards, p) == DoubleFreeDetected)
  {
    hide Flat, ShardValid, ShardIndex, LiveOk, IdsOk, Accounts, PeakOk, Ownership, Quarantined;
    EraseRefines(w.shards, p);
    assert w.threads[i := Idle] == w.threads;
  }

  /** Of two threads that race to free one live pointer, the first takes the block and the second nothing. */
  lemma RacingFrees(g: Setting, w: World, i: nat, j: nat, p: nat) returns (first: World)
    requires Inv(g, w) && i < |w.threads| && j < |w.threads| && i != j
    requires w.threads[i].Idle? && w.threads[j].Idle? && p in Flat(w.shards)
    ensures Enabled(g, w, i, FreeAct(p)) && first == Next(g, w, i, FreeAct(p))
    ensures |first.threads| == |w.threads| && first.threads[i] == Erased(Flat(w.shards)[p])
    ensures Shaped(first.shards) && StatusOf(first.shards, p) == DoubleFreeDetected
    ensures Enabled(g, first, j, FreeAct(p)) && Next(g, first, j, FreeAct(p)) == first
  {
    hide Flat, ShardValid, ShardIndex, LiveOk, IdsOk, Accounts, PeakOk, Ownership, Quarantined, Erase, StatusOf,
      Matched;
    EraseRefines(w.shards, p);
    assert p != 0 by { FlatLookup(w.shards, p); }
    StepKeeps(g, w, i, FreeAct(p));
    first := Next(g, w, i, FreeAct(p));
    FreeingAgainChangesNothing(g, first, j, p);
  }

  /** Inserting never overwrites a live record. */
  lemma InsertsAreFresh(g: Setting, run: seq<World>, moves: seq<Move>, k: nat)
    requires IsRun(g, run, moves) && k < |moves| && moves[k].thread < |run[k].threads|
    requires run[k].threads[moves[k].thread].Counted?
    ensures var w, r := run[k], run[k].threads[moves[k].thread].r;
      && Shaped(w.shards) && Shaped(run[k + 1].shards) && r.userPtr !in Flat(w.shards)
      && Flat(run[k + 1].shards) == Flat(w.shards)[r.userPtr := r]
  {
    hide Flat, ShardValid, ShardIndex, LiveOk, IdsOk, Accounts, PeakOk, Ownership, Quarantined, Insert, Matched;
    RunIsGood(g, run, moves, k);
    assert Moves(g, run[k], moves[k], run[k + 1]);
    var w, i := run[k], moves[k].thread;
    InsertIsFresh(Flat(w.shards), w.threads, w.live, Loose(w), g.limit, i, w.threads[i].r);
    InsertRefines(w.shards, w.threads[i].r.userPtr, w.threads[i].r);
  }

  // ---------- allocation ids

  ghost predicate LiveId(w: World, id: nat, r: Record)
    requires Shaped(w.shards)
  {
    r.allocationId == id && r.userPtr in Flat(w.shards) && Flat(w.shards)[r.userPtr] == r
  }

  lemma LiveIdStep(g: Setting, w: World, m: Move, id: nat, r: Record)
    requires Inv(g, w) && Enabled(g, w, m.thread, m.act) && LiveId(w, id, r)
    ensures var w' := Next(g, w, m.thread, m.act);
      && Inv(g, w') && w.past.drawn <= w'.past.drawn && w.past.retired <= w'.past.retired
      && (LiveId(w', id, r) || id in w'.past.retired)
  {
    hide Flat, ShardValid, ShardIndex, LiveOk, IdsOk, Accounts, PeakOk, Ownership, Quarantined, Insert, Erase,
      Matched, Sane, Wrap;
    StepKeeps(g, w, m.thread, m.act);
    var pc := w.threads[m.thread];
    if pc.Counted? {
      InsertIsFresh(Flat(w.shards), w.threads, w.live, Loose(w), g.limit, m.thread, pc.r);
      InsertRefines(w.shards, pc.r.userPtr, pc.r);
    } else if pc.Idle? && m.act.FreeAct? {
      EraseRefines(w.shards, m.act.p);
    }
  }

  lemma RetiredStays(g: Setting, w: World, m: Move)
    requires Inv(g, w) && Enabled(g, w, m.thread, m.act)
    ensures var w' := Next(g, w, m.thread, m.act);
      w.past.drawn <= w'.past.drawn && w.past.retired <= w'.past.retired
  {
    hide Flat, ShardValid, ShardIndex, LiveOk, IdsOk, Accounts, PeakOk, Ownership, Quarantined, Insert, Erase,
      Matched, Sane, Wrap;
  }

  /** A live record is still there later, or its id is retired for good. */
  lemma {:induction false} LiveOrRetired(g: Setting, run: seq<World>, moves: seq<Move>, j: nat, k: nat, id: nat,
                                         r: Record)
    requires IsRun(g, run, moves) && j <= k < |run| && Inv(g, run[j]) && LiveId(run[j], id, r)
    ensures Inv(g, run[k]) && run[j].past.drawn <= run[k].past.drawn && run[j].past.retired <= run[k].past.retired
    ensures LiveId(run[k], id, r) || id in run[k].past.retired
  {
    hide Inv, Next, Enabled, Begin, LiveId;
    assert forall w :: Inv(g, w) ==> Shaped(w.shards) by { InvShaped(g); }
    if j < k {
      LiveOrRetired(g, run, moves, j, k - 1, id, r);
      assert Moves(g, run[k - 1], moves[k - 1], run[k]);
      RunIsGood(g, run, moves, k);
      RetiredStays(g, run[k - 1], moves[k - 1]);
      if LiveId(run[k - 1], id, r) { LiveIdStep(g, run[k - 1], moves[k - 1], id, r); }
    }
  }

  lemma InvShaped(g: Setting)
    ensures forall w :: Inv(g, w) ==> Shaped(w.shards)
  {
  }

  /**
   Allocation ids never come back: with fewer than 2^64 - 1 allocations drawn, a record live at two
   moments of a run was live at every moment between them.
   */
  lemma LiveWithoutGaps(g: Setting, run: seq<World>, moves: seq<Move>, a: nat, b: nat, c: nat, id: nat, r: Record,
                        r': Record)
    requires IsRun(g, run, moves) && a <= b <= c < |run| && run[c].past.drawn < W64 - 1
    requires Shaped(run[a].shards) && Shaped(run[c].shards) && LiveId(run[a], id, r) && LiveId(run[c], id, r')
    ensures Shaped(run[b].shards) && LiveId(run[b], id, r) && r' == r
  {
    hide Inv, IsRun, LiveId, IdsOk;
    RunIsGood(g, run, moves, a);
    LiveOrRetired(g, run, moves, a, b, id, r);
    LiveOrRetired(g, run, moves, a, c, id, r);
    LiveIsNotRetired(g, run[c], id, r');
    if id in run[b].past.retired {
      RetiredForGood(g, run, moves, b, c);
    } else {
      assert LiveId(run[c], id, r);
      OneIdOneRecord(g, run[c], id, r, r');
    }
    InvShaped(g);
  }

  lemma {:induction false} RetiredForGood(g: Setting, run: seq<World>, moves: seq<Move>, j: nat, k: nat)
    requires IsRun(g, run, moves) && j <= k < |run|
    ensures run[j].past.retired <= run[k].past.retired && run[j].past.drawn <= run[k].past.drawn
  {
    hide Inv, Next, Enabled, Begin;
    if j < k {
      RetiredForGood(g, run, moves, j, k - 1);
      RunIsGood(g, run, moves, k - 1);
      assert Moves(g, run[k - 1], moves[k - 1], run[k]);
      RetiredStays(g, run[k - 1], moves[k - 1]);
    }
  }

  lemma LiveIsNotRetired(g: Setting, w: World, id: nat, r: Record)
    requires Inv(g, w) && w.past.drawn < W64 - 1 && LiveId(w, id, r)
    ensures id !in w.past.retired
  {
    hide Flat, ShardValid, ShardIndex, LiveOk, Accounts, PeakOk, Ownership, Matched;
    assert Issued(Flat(w.shards), w.threads, Kept(r.userPtr)) == Some(id);
  }

  lemma OneIdOneRecord(g: Setting, w: World, id: nat, r: Record, r': Record)
    requires Inv(g, w) && w.past.drawn < W64 - 1 && LiveId(w, id, r) && LiveId(w, id, r')
    ensures r == r'
  {
    hide Flat, ShardValid, ShardIndex, LiveOk, Accounts, PeakOk, Ownership, Matched;
    assert Issued(Flat(w.shards), w.threads, Kept(r.userPtr)) == Some(id);
    assert Issued(Flat(w.shards), w.threads, Kept(r'.userPtr)) == Some(id);
  }
}
