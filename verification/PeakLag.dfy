/**
 A run in which the counters are read at a bad moment: one allocation has returned, and a second has
 raised `current` but not yet the peak.
 */
module PeakLag {
  import opened Words
  import opened Layout
  import opened Records
  import opened TrackerSpec
  import opened Sampling
  import opened SystemHeap
  import opened ManagerSpec
  import opened Concurrent
  import opened ConcurrentProofs
  import opened ConcurrentRuns
  import opened Fragmentation

  const HERE: Setting := Setting(Config(0, 0, 100, true, 16, 16, 0, 0, false), 0x2_0000)

  function Ask(size: nat): Request { Request(size, 16, 0, Env(0, 0, 0, [], 1, 1, 0)) }

  /** The last state of a run of one thread, as far as it matters. */
  ghost predicate Ends(run: seq<World>, moves: seq<Move>, pc: Pc, current: nat, peak: nat, live: map<nat, nat>) {
    && IsRun(HERE, run, moves)
    && var w := run[|run| - 1];
    && w.threads == [pc] && w.counters.current == current && w.counters.peak == peak && w.live == live
  }

  /** One more move of the only thread. */
  lemma Extend(run: seq<World>, moves: seq<Move>, a: Act) returns (run': seq<World>, moves': seq<Move>)
    requires IsRun(HERE, run, moves)
    requires Shaped(run[|run| - 1].shards) && Enabled(HERE, run[|run| - 1], 0, a)
    ensures IsRun(HERE, run', moves') && |run'| > 0 && run'[|run'| - 1] == Next(HERE, run[|run| - 1], 0, a)
    ensures Shaped(run'[|run'| - 1].shards)
  {
    hide Next, Enabled, Begin, Inv;
    run', moves' := run + [Next(HERE, run[|run| - 1], 0, a)], moves + [Move(0, a)];
    forall k | 0 <= k < |moves'| ensures Moves(HERE, run'[k], moves'[k], run'[k + 1]) {
      if k < |moves| { assert Moves(HERE, run[k], moves[k], run[k + 1]); }
    }
    RunIsGood(HERE, run', moves', |run'| - 1);
    InvShaped(HERE);
  }

  lemma LastIsShaped(run: seq<World>, moves: seq<Move>)
    requires IsRun(HERE, run, moves)
    ensures |run| > 0 && Shaped(run[|run| - 1].shards)
  {
    hide Inv;
    RunIsGood(HERE, run, moves, |run| - 1);
    InvShaped(HERE);
  }

  /** An idle thread allocates up to the point where `current` is raised. */
  lemma Raise(run: seq<World>, moves: seq<Move>, current: nat, peak: nat, live: map<nat, nat>, size: nat, choice: nat)
    returns (run': seq<World>, moves': seq<Move>, r: Record)
    requires Ends(run, moves, Idle, current, peak, live) && current + size < W64 && size < W64
    requires CanGive(live, HERE.limit, choice, TrueTotal(size, 16, 16))
    ensures Ends(run', moves', CurrentAdded(r, current + size), current + size, peak,
                 live[choice := TrueTotal(size, 16, 16)])
  {
    hide IsRun, Flat, Wrap, MayFree, Inv, Shaped;
    LastIsShaped(run, moves);
    var q := Ask(size);
    TotalSizeIsExactIff(size, 16, 16);
    BlockFits(HERE, run[|run| - 1], 0, q, choice);
    run', moves' := Extend(run, moves, AllocAct(q));
    run', moves' := Extend(run', moves', MallocAct(choice));
    r := run'[|run'| - 1].threads[0].r;
    run', moves' := Extend(run', moves', GoAct);
    run', moves' := Extend(run', moves', GoAct);
    run', moves' := Extend(run', moves', GoAct);
    run', moves' := Extend(run', moves', GoAct);
    WrapSmall(current + size);
  }

  /** The thread goes on to raise the peak and returns. */
  lemma Settle(run: seq<World>, moves: seq<Move>, r: Record, current: nat, peak: nat, live: map<nat, nat>)
    returns (run': seq<World>, moves': seq<Move>)
    requires Ends(run, moves, CurrentAdded(r, current), current, peak, live) && peak < current
    ensures Ends(run', moves', Idle, current, current, live)
  {
    hide IsRun, Flat, Wrap, MayFree, Inv, Shaped, Insert;
    LastIsShaped(run, moves);
    run', moves' := Extend(run, moves, GoAct);
    run', moves' := Extend(run', moves', GoAct);
    run', moves' := Extend(run', moves', GoAct);
  }

  /** `current` is 101 and the peak 1: the reported ratio is -100. */
  lemma RatioBelowZero() returns (run: seq<World>, moves: seq<Move>)
    ensures IsRun(HERE, run, moves)
    ensures var s := run[|run| - 1].counters; s.current == 101 && s.peak == 1 && Ratio(s) == -100.0
  {
    hide IsRun;
    run, moves := [Begin(1)], [];
    assert IsRun(HERE, run, moves) by { JustBegun(); }
    var r;
    run, moves, r := Raise(run, moves, 0, 0, map[], 1, LOWEST);
    run, moves := Settle(run, moves, r, 1, 0, map[LOWEST := 101]);
    run, moves, r := Raise(run, moves, 1, 1, map[LOWEST := 101], 100, LOWEST + 112);
  }

  lemma JustBegun()
    ensures IsRun(HERE, [Begin(1)], [])
  {
  }
}
