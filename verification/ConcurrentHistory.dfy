/**
 The calls that the threads of a run make on the tracker, in the order of their steps, are a history,
 and what holds of histories holds of runs: which frees are taken for double frees, and what a scan
 of the shards returns while other threads go on.
 */
module ConcurrentHistory {
  import opened Words
  import opened TrackerSpec
  import opened TrackerHistory
  import opened SystemHeap
  import opened ManagerSpec
  import opened Concurrent
  import opened ConcurrentProofs
  import opened ConcurrentRuns

  /** The call that a move makes on the tracker, if it makes one. */
  function CallOf(w: World, m: Move): History
    requires m.thread < |w.threads|
  {
    match w.threads[m.thread]
    case Idle => if m.act.FreeAct? && m.act.p != 0 then [EraseCall(m.act.p)] else []
    case Counted(r, _) => [InsertCall(r.userPtr, r)]
    case _ => []
  }

  /** The calls that the first `k` moves make. */
  ghost function Calls(g: Setting, run: seq<World>, moves: seq<Move>, k: nat): History
    requires IsRun(g, run, moves) && k < |run|
  {
    if k == 0 then [] else
    assert Moves(g, run[k - 1], moves[k - 1], run[k]);
    Calls(g, run, moves, k - 1) + CallOf(run[k - 1], moves[k - 1])
  }

  /** A move changes the shards by its call, and not at all if it makes none. */
  lemma MoveIsItsCall(g: Setting, w: World, m: Move, w': World, h: History)
    requires Moves(g, w, m, w') && w.shards == Run(h)
    ensures w'.shards == Run(h + CallOf(w, m))
  {
    hide Next, Enabled, Run, Insert, Erase;
    ShardsFollow(g, w, m, w');
    assert m.thread < |w.threads| by { MoverExists(g, w, m, w'); }
    var calls := CallOf(w, m);
    if calls == [] {
      assert h + [] == h;
    } else {
      OneMoreCall(h, calls[0]);
      assert calls == [calls[0]];
    }
  }

  lemma MoverExists(g: Setting, w: World, m: Move, w': World)
    requires Moves(g, w, m, w')
    ensures m.thread < |w.threads|
  {
    hide Next, Flat, Sane, MayFree;
  }

  lemma OneMoreCall(h: History, c: Call)
    ensures Run(h + [c]) == Apply(Run(h), c)
  {
    hide Insert, Erase;
    assert (h + [c])[..|h|] == h;
  }

  lemma ShardsFollow(g: Setting, w: World, m: Move, w': World)
    requires Moves(g, w, m, w')
    ensures m.thread < |w.threads|
    ensures w'.shards == if CallOf(w, m) == [] then w.shards else Apply(w.shards, CallOf(w, m)[0])
  {
    hide Insert, Erase, StatusOf, Flat, TotalFor, MayFree, CanGive, Sane, RecordFor, Wrap, PeakStep;
    if w.threads[m.thread].PeakLoaded? { PeakStepRest(w, m.thread, m.act.SpuriousAct?); }
  }

  /** In every state of every run the shards are what the calls so far have made of them. */
  lemma {:induction false} RunIsHistory(g: Setting, run: seq<World>, moves: seq<Move>, k: nat)
    requires IsRun(g, run, moves) && k < |run|
    ensures run[k].shards == Run(Calls(g, run, moves, k))
    ensures Shaped(run[k].shards) && Flat(run[k].shards) == Live(Calls(g, run, moves, k))
  {
    hide Moves, Run, Live, Flat;
    if k == 0 {
      assert run[0].shards == Run([]) by { EmptyRun(); }
    } else {
      RunIsHistory(g, run, moves, k - 1);
      assert Moves(g, run[k - 1], moves[k - 1], run[k]);
      MoveIsItsCall(g, run[k - 1], moves[k - 1], run[k], Calls(g, run, moves, k - 1));
    }
    RunRefinesMap(Calls(g, run, moves, k));
  }

  lemma EmptyRun()
    ensures Run([]) == Empty()
  {
  }

  /**
   In every state of every run, freeing a pointer is taken for a double free exactly when one of the
   last 256 erases of its shard, by whatever threads, erased it and no thread has inserted it since.
   */
  lemma DoubleFreeInRunIff(g: Setting, run: seq<World>, moves: seq<Move>, k: nat, p: nat)
    requires IsRun(g, run, moves) && k < |run| && p != 0
    ensures Shaped(run[k].shards)
    ensures StatusOf(run[k].shards, p) == DoubleFreeDetected
      <==> exists i: nat :: InWindow(Calls(g, run, moves, k), i, p)
    ensures StatusOf(run[k].shards, p) == Success <==> p in Live(Calls(g, run, moves, k))
  {
    hide Calls, Run, Live, Flat, InWindow, StatusOf, IsRun;
    RunIsHistory(g, run, moves, k);
    DoubleFreeIff(Calls(g, run, moves, k), p);
  }

  // ---------- scans

  /**
   `snapshot_all` on a run: shard `s` is read in the state number `visit[s]`, one shard after another
   while other threads go on, and contributes `parts[s]`.
   */
  ghost predicate Scans(run: seq<World>, visit: seq<nat>, parts: seq<Part>) {
    && |visit| == |parts| == SHARD_COUNT
    && (forall s, t :: 0 <= s <= t < SHARD_COUNT ==> visit[s] <= visit[t])
    && (forall s :: 0 <= s < SHARD_COUNT ==>
          visit[s] < |run| && Shaped(run[visit[s]].shards)
          && Enumerates(parts[s].records, parts[s].keys, run[visit[s]].shards[s].records))
  }

  lemma {:induction false} CallsGrow(g: Setting, run: seq<World>, moves: seq<Move>, j: nat, k: nat)
    requires IsRun(g, run, moves) && j <= k < |run|
    ensures |Calls(g, run, moves, j)| <= |Calls(g, run, moves, k)|
    ensures Calls(g, run, moves, k)[..|Calls(g, run, moves, j)|] == Calls(g, run, moves, j)
  {
    hide Moves, CallOf;
    if j < k {
      CallsGrow(g, run, moves, j, k - 1);
      assert Moves(g, run[k - 1], moves[k - 1], run[k]);
    }
  }

  /** How many calls the states read by a scan have seen. */
  ghost function Seen(g: Setting, run: seq<World>, moves: seq<Move>, visit: seq<nat>): seq<nat>
    requires IsRun(g, run, moves) && forall s :: 0 <= s < |visit| ==> visit[s] < |run|
  {
    seq(|visit|, s requires 0 <= s < |visit| => |Calls(g, run, moves, visit[s])|)
  }

  /** A scan of a run is a scan of its history. */
  lemma ScanOfHistory(g: Setting, run: seq<World>, moves: seq<Move>, visit: seq<nat>, parts: seq<Part>)
    requires IsRun(g, run, moves) && Scans(run, visit, parts)
    ensures IsScan(Calls(g, run, moves, |moves|), Seen(g, run, moves, visit), parts)
  {
    hide Calls, Run, Enumerates, IsRun, Flat, Live;
    assert |run| == |moves| + 1 by { RunLength(g, run, moves); }
    forall s, t | 0 <= s <= t < SHARD_COUNT
      ensures |Calls(g, run, moves, visit[s])| <= |Calls(g, run, moves, visit[t])|
    {
      CallsGrow(g, run, moves, visit[s], visit[t]);
    }
    var h, seen := Calls(g, run, moves, |moves|), Seen(g, run, moves, visit);
    forall s | 0 <= s < SHARD_COUNT
      ensures seen[s] <= |h| && Enumerates(parts[s].records, parts[s].keys, Run(h[..seen[s]])[s].records)
    {
      CallsGrow(g, run, moves, visit[s], |moves|);
      RunIsHistory(g, run, moves, visit[s]);
    }
  }

  lemma RunLength(g: Setting, run: seq<World>, moves: seq<Move>)
    requires IsRun(g, run, moves)
    ensures |run| == |moves| + 1
  {
  }

  /** While threads go on, a scan returns only records that were live in the state that their shard was read in. */
  lemma ScanOfRunIsSound(g: Setting, run: seq<World>, moves: seq<Move>, visit: seq<nat>, parts: seq<Part>, s: nat,
                         j: nat)
    requires IsRun(g, run, moves) && Scans(run, visit, parts) && s < SHARD_COUNT && j < |parts[s].keys|
    ensures |parts[s].records| == |parts[s].keys|
    ensures var p, recs := parts[s].keys[j], Flat(run[visit[s]].shards);
      p in recs && recs[p] == parts[s].records[j]
    ensures forall s', j' :: 0 <= s' < SHARD_COUNT && 0 <= j' < |parts[s'].keys| && (s, j) != (s', j') ==>
      parts[s'].keys[j'] != parts[s].keys[j]
  {
    hide Calls, Run, Enumerates, IsRun, Flat, Live, IsScan;
    RunLength(g, run, moves);
    var h, seen := Calls(g, run, moves, |moves|), Seen(g, run, moves, visit);
    ScanOfHistory(g, run, moves, visit, parts);
    ScanIsSound(h, seen, parts, s, j);
    CallsGrow(g, run, moves, visit[s], |moves|);
    RunIsHistory(g, run, moves, visit[s]);
    forall s', j' | 0 <= s' < SHARD_COUNT && 0 <= j' < |parts[s'].keys| && (s, j) != (s', j')
      ensures parts[s'].keys[j'] != parts[s].keys[j]
    {
      ScanHasNoDuplicates(h, seen, parts, s', j', s, j);
    }
  }

  /**
   It returns a pointer's record exactly if the pointer is live in the state that its shard was read
   in; so it returns every record that is live from its first shard's state to its last's.
   */
  lemma ScanOfRunIsComplete(g: Setting, run: seq<World>, moves: seq<Move>, visit: seq<nat>, parts: seq<Part>, p: nat)
    requires IsRun(g, run, moves) && Scans(run, visit, parts)
    ensures var s := ShardIndex(p);
      && visit[0] <= visit[s] <= visit[SHARD_COUNT - 1] < |run|
      && (p in parts[s].keys <==> p in Flat(run[visit[s]].shards))
      && (p in Flat(run[visit[s]].shards) ==> Flat(run[visit[s]].shards)[p] in parts[s].records)
  {
    hide IsRun, Flat, ShardIndex, Calls, Run, Live;
    var s := ShardIndex(p);
    var w := run[visit[s]];
    RunIsHistory(g, run, moves, visit[s]);
    RunRefinesMap(Calls(g, run, moves, visit[s]));
    assert ShardValid(w.shards[s], s);
    FlatLookup(w.shards, p);
    EnumerationIsAll(parts[s].records, parts[s].keys, w.shards[s].records);
  }
}
