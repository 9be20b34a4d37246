/**
 The life of a block over a run of interleaved threads: which request each record answers, how each
 free began, and when a block is given back or kept.
 */
module ConcurrentLives {
  import opened Words
  import opened Wrappers
  import opened Layout
  import opened Records
  import opened TrackerSpec
  import opened Sampling
  import opened SystemHeap
  import opened ManagerSpec
  import opened Concurrent
  import opened ConcurrentProofs
  import opened ConcurrentRuns
  import opened ConcurrentAlone

  /** The threads that do not move stay where they are. */
  lemma OthersStay(g: Setting, w: World, m: Move, w': World)
    requires Moves(g, w, m, w')
    ensures m.thread < |w.threads| && |w'.threads| == |w.threads|
    ensures forall t :: 0 <= t < |w.threads| && t != m.thread ==> w'.threads[t] == w.threads[t]
  {
    hide Flat, Sane, Wrap, Insert, Erase, StatusOf, CanGive, TotalFor, MayFree, RecordFor, PeakStep, Take, Next;
    if Quiet(w.threads[m.thread], m.act) {
      QuietRest(g, w, m.thread, m.act);
    } else {
      LoudStepIsAlone(g, w, m, w');
    }
  }

  lemma LoudStepIsAlone(g: Setting, w: World, m: Move, w': World)
    requires Moves(g, w, m, w') && m.thread < |w.threads| && !Quiet(w.threads[m.thread], m.act)
    ensures |w'.threads| == |w.threads|
    ensures forall t :: 0 <= t < |w.threads| && t != m.thread ==> w'.threads[t] == w.threads[t]
  {
    hide Flat, Sane, Wrap, Insert, Erase, StatusOf, CanGive, TotalFor, MayFree, RecordFor;
  }

  // ---------- requests and records

  /** Record `r` is of a block of raw address `raw`, made for request `q` with id `id`. */
  ghost predicate Answers(c: Config, r: Record, id: nat, q: Request, raw: nat) {
    && r.allocationId == id && r.rawPtr == raw && r.requested == q.size
    && r.alignment == (if q.alignment > 16 then q.alignment else 16)
    && r.total == 68 + r.alignment + q.size + (if c.enableCanary then c.canaryFooterSize else 0)
    && raw + 68 <= r.userPtr && r.userPtr + r.requested <= raw + r.total
    && r.threadId == q.env.threadId && r.frames == q.env.frames
    && (q.tag != 0 ==> r.tag == q.tag)
    && (q.tag == 0 && q.env.scopeTag != 0 ==> r.tag == q.env.scopeTag)
    && (q.tag == 0 && q.env.scopeTag == 0 ==> r.tag == c.defaultTag)
  }

  /** A thread with a new record that it has not inserted yet. */
  predicate Allocating(pc: Pc) {
    pc.Placed? || pc.TotalAdded? || pc.CountAdded? || pc.ActiveAdded? || pc.CurrentAdded? || pc.PeakLoaded?
    || pc.Counted?
  }

  lemma RecordAnswers(g: Setting, w: World, id: nat, q: Request, choice: nat)
    requires g.limit < W64 && Sane(g.c, q.size, q.alignment, q.tag, q.env)
    requires TotalFor(g, q) != 0 && CanGive(w.live, g.limit, choice, TotalFor(g, q))
    ensures choice + MaxOffset(q.alignment) <= W64
    ensures Answers(g.c, RecordFor(g, choice, TotalFor(g, q), id, q), id, q, choice)
  {
    hide UserAddress;
    PartsFitInTotal(choice, q.size, EffectiveAlignment(q.alignment), FooterSize(g.c));
  }

  /** How a thread comes to hold a drawn id or a new record. */
  lemma StepAllocates(g: Setting, w: World, m: Move, w': World)
    requires g.limit < W64 && Moves(g, w, m, w') && m.thread < |w.threads| == |w'.threads|
    ensures var pc, pc' := w.threads[m.thread], w'.threads[m.thread];
      && (pc'.Drawn? ==> pc.Idle? && m.act == AllocAct(pc'.q) && pc'.id == w.nextId)
      && (Allocating(pc') && !Allocating(pc) ==>
            pc.Drawn? && m.act.MallocAct? && Answers(g.c, pc'.r, pc.id, pc.q, m.act.choice))
      && (Allocating(pc') && Allocating(pc) ==> pc'.r == pc.r)
  {
    hide Flat, Sane, Wrap, Insert, Erase, StatusOf, CanGive, TotalFor, MayFree, RecordFor, PeakStep, Answers;
    var pc := w.threads[m.thread];
    if pc.PeakLoaded? { PeakStepRest(w, m.thread, m.act.SpuriousAct?); }
    if pc.Drawn? && m.act.MallocAct? {
      var total := TotalFor(g, pc.q);
      if total != 0 && CanGive(w.live, g.limit, m.act.choice, total) {
        BlockFits(g, w, pc.id, pc.q, m.act.choice);
        RecordAnswers(g, w, pc.id, pc.q, m.act.choice);
      }
    }
  }

  /** Thread `t` drew its id with move `i` and was given the block of `r` with move `j`. */
  ghost predicate RequestedAt(g: Setting, run: seq<World>, moves: seq<Move>, i: nat, j: nat, t: nat, r: Record) {
    && i < j < |moves| && j < |run| && t < |run[i].threads| && t < |run[j].threads|
    && run[i].threads[t].Idle? && moves[i].thread == t && moves[i].act.AllocAct?
    && run[j].threads[t] == Drawn(run[i].nextId, moves[i].act.q)
    && moves[j].thread == t && moves[j].act.MallocAct?
    && Answers(g.c, r, run[i].nextId, moves[i].act.q, moves[j].act.choice)
  }

  lemma {:induction false} DrawnBefore(g: Setting, run: seq<World>, moves: seq<Move>, k: nat, t: nat)
    returns (i: nat)
    requires IsRun(g, run, moves) && k < |run| && t < |run[k].threads| && run[k].threads[t].Drawn?
    ensures i < k && t < |run[i].threads| && run[i].threads[t].Idle?
    ensures moves[i] == Move(t, AllocAct(run[k].threads[t].q)) && run[k].threads[t].id == run[i].nextId
  {
    hide Next, Enabled, Begin;
    assert k > 0 by { NothingBegun(run[0]); }
    assert Moves(g, run[k - 1], moves[k - 1], run[k]);
    OthersStay(g, run[k - 1], moves[k - 1], run[k]);
    StepAllocates(g, run[k - 1], moves[k - 1], run[k]);
    if moves[k - 1].thread == t { i := k - 1; } else { i := DrawnBefore(g, run, moves, k - 1, t); }
  }

  lemma NothingBegun(w: World)
    ensures w == Begin(|w.threads|) ==> forall t :: 0 <= t < |w.threads| ==> w.threads[t].Idle?
    ensures w == Begin(|w.threads|) ==> w.past.retained == {} && w.past.releases == w.past.mallocs == multiset{}
  {
  }

  lemma {:induction false} AllocatingBefore(g: Setting, run: seq<World>, moves: seq<Move>, k: nat, t: nat)
    returns (i: nat, j: nat)
    requires IsRun(g, run, moves) && k < |run| && t < |run[k].threads| && Allocating(run[k].threads[t])
    ensures j < k && RequestedAt(g, run, moves, i, j, t, run[k].threads[t].r)
  {
    hide Next, Enabled, Begin, Answers;
    assert k > 0 by { NothingBegun(run[0]); }
    var w := run[k - 1];
    assert Moves(g, w, moves[k - 1], run[k]);
    OthersStay(g, w, moves[k - 1], run[k]);
    StepAllocates(g, w, moves[k - 1], run[k]);
    if moves[k - 1].thread == t && !Allocating(w.threads[t]) {
      j := k - 1;
      i := DrawnBefore(g, run, moves, j, t);
    } else {
      i, j := AllocatingBefore(g, run, moves, k - 1, t);
    }
  }

  /**
   Every record in the tracker answers a request: some thread drew its id for that request and was then
   given its block, and size, alignment, tag, thread and call stack are the request's.
   */
  lemma {:induction false} RecordsAnswerRequests(g: Setting, run: seq<World>, moves: seq<Move>, k: nat, p: nat)
    returns (i: nat, j: nat, t: nat)
    requires IsRun(g, run, moves) && k < |run| && Shaped(run[k].shards) && p in Flat(run[k].shards)
    ensures j < k && RequestedAt(g, run, moves, i, j, t, Flat(run[k].shards)[p])
  {
    hide Next, Enabled, Begin, Answers, Inv, Flat, RequestedAt;
    assert k > 0 by { NoRecordsBegun(run[0], p); }
    var w, m := run[k - 1], moves[k - 1];
    assert Moves(g, w, m, run[k]);
    RunIsGood(g, run, moves, k - 1);
    OthersStay(g, w, m, run[k]);
    RecordsStep(g, w, m, run[k], p);
    if p in Flat(w.shards) && Flat(w.shards)[p] == Flat(run[k].shards)[p] {
      i, j, t := RecordsAnswerRequests(g, run, moves, k - 1, p);
    } else {
      t := m.thread;
      i, j := AllocatingBefore(g, run, moves, k - 1, t);
    }
  }

  lemma NoRecordsBegun(w: World, p: nat)
    ensures w == Begin(|w.threads|) ==> Shaped(w.shards) && p !in Flat(w.shards)
  {
    EmptyIsValid();
  }

  /** A record is there after a step if it was before, or if the thread that moved inserted it. */
  lemma RecordsStep(g: Setting, w: World, m: Move, w': World, p: nat)
    requires Inv(g, w) && Moves(g, w, m, w') && m.thread < |w.threads|
    ensures Shaped(w.shards) && Shaped(w'.shards)
    ensures p in Flat(w'.shards) ==>
      || (p in Flat(w.shards) && Flat(w.shards)[p] == Flat(w'.shards)[p])
      || (w.threads[m.thread].Counted? && Flat(w'.shards)[p] == w.threads[m.thread].r)
  {
    hide Flat, ShardValid, ShardIndex, LiveOk, IdsOk, Accounts, PeakOk, Ownership, Quarantined, Insert, Erase,
      Matched, Sane, Wrap, StatusOf, MayFree;
    var pc := w.threads[m.thread];
    if pc.Counted? {
      InsertIsFresh(Flat(w.shards), w.threads, w.live, Loose(w), g.limit, m.thread, pc.r);
      InsertRefines(w.shards, pc.r.userPtr, pc.r);
    } else if pc.Idle? && m.act.FreeAct? {
      EraseRefines(w.shards, m.act.p);
    }
  }

  // ---------- how a free goes

  /** With move `i` thread `t` took record `r` out of the tracker. */
  ghost predicate BegunAt(run: seq<World>, moves: seq<Move>, i: nat, t: nat, r: Record) {
    && i < |moves| && i < |run| && t < |run[i].threads| && run[i].threads[t].Idle?
    && moves[i] == Move(t, FreeAct(r.userPtr))
    && Shaped(run[i].shards) && r.userPtr in Flat(run[i].shards) && Flat(run[i].shards)[r.userPtr] == r
  }

  /** With move `j` thread `t` found the block of `r` intact, or not. */
  ghost predicate CheckedAt(run: seq<World>, moves: seq<Move>, j: nat, t: nat, r: Record, ok: bool) {
    && j < |moves| && j < |run| && t < |run[j].threads| && run[j].threads[t] == Erased(r)
    && moves[j] == Move(t, CheckAct(ok))
  }

  lemma StepFrees(g: Setting, w: World, m: Move, w': World)
    requires Inv(g, w) && Moves(g, w, m, w') && m.thread < |w.threads| == |w'.threads|
    ensures Shaped(w.shards)
    ensures var pc, pc' := w.threads[m.thread], w'.threads[m.thread];
      && (pc'.Erased? ==> pc.Idle? && m.act == FreeAct(pc'.r.userPtr)
                          && pc'.r.userPtr in Flat(w.shards) && Flat(w.shards)[pc'.r.userPtr] == pc'.r)
      && (InCheck(pc').Some? ==>
            || (pc == Erased(pc'.r) && m.act == CheckAct(InCheck(pc').value))
            || (InCheck(pc) == InCheck(pc') && pc.r == pc'.r))
  {
    hide Flat, ShardValid, ShardIndex, LiveOk, IdsOk, Accounts, PeakOk, Claims, Quarantined, Insert, Erase, StatusOf,
      Matched, Sane, Wrap, MayFree, PeakStep, Take, CanGive;
    if w.threads[m.thread].PeakLoaded? { PeakStepRest(w, m.thread, m.act.SpuriousAct?); }
    if w.threads[m.thread].Drawn? && m.act.MallocAct? { TakeIsNoFree(g, w, m); }
  }

  lemma TakeIsNoFree(g: Setting, w: World, m: Move)
    requires Shaped(w.shards) && Enabled(g, w, m.thread, m.act) && w.threads[m.thread].Drawn? && m.act.MallocAct?
    ensures var pc' := Next(g, w, m.thread, m.act).threads[m.thread]; pc'.Idle? || pc'.Placed?
  {
    hide Flat, CanGive, TotalFor, RecordFor, Sane;
  }

  lemma {:induction false} ErasedBefore(g: Setting, run: seq<World>, moves: seq<Move>, k: nat, t: nat)
    returns (i: nat)
    requires IsRun(g, run, moves) && k < |run| && t < |run[k].threads| && run[k].threads[t].Erased?
    ensures i < k && BegunAt(run, moves, i, t, run[k].threads[t].r)
  {
    hide Next, Enabled, Begin, Inv, Flat;
    assert k > 0 by { NothingBegun(run[0]); }
    assert Moves(g, run[k - 1], moves[k - 1], run[k]);
    OthersStay(g, run[k - 1], moves[k - 1], run[k]);
    RunIsGood(g, run, moves, k - 1);
    StepFrees(g, run[k - 1], moves[k - 1], run[k]);
    if moves[k - 1].thread == t { i := k - 1; } else { i := ErasedBefore(g, run, moves, k - 1, t); }
  }

  /** What a thread in the middle of a free found in its check, and when it began. */
  lemma {:induction false} FreesWereChecked(g: Setting, run: seq<World>, moves: seq<Move>, k: nat, t: nat)
    returns (i: nat, j: nat)
    requires IsRun(g, run, moves) && k < |run| && t < |run[k].threads| && InCheck(run[k].threads[t]).Some?
    ensures var r, ok := run[k].threads[t].r, InCheck(run[k].threads[t]).value;
      i < j < k && BegunAt(run, moves, i, t, r) && CheckedAt(run, moves, j, t, r, ok)
  {
    hide Next, Enabled, Begin, Inv, Flat;
    assert k > 0 by { NothingBegun(run[0]); }
    var w := run[k - 1];
    assert Moves(g, w, moves[k - 1], run[k]);
    OthersStay(g, w, moves[k - 1], run[k]);
    RunIsGood(g, run, moves, k - 1);
    StepFrees(g, w, moves[k - 1], run[k]);
    if moves[k - 1].thread == t && w.threads[t].Erased? {
      j := k - 1;
      i := ErasedBefore(g, run, moves, j, t);
    } else {
      i, j := FreesWereChecked(g, run, moves, k - 1, t);
    }
  }

  // ---------- what is given back, and what is kept

  /** What a move hands out to the client or to a thread. */
  ghost function HandsOut(g: Setting, w: World, m: Move): multiset<nat>
    requires m.thread < |w.threads|
  {
    var size := if m.act.PlainAct? then m.act.size else if w.threads[m.thread].Drawn? then
                  TotalFor(g, w.threads[m.thread].q) else 0;
    if m.act.PlainAct? && CanGive(w.live, g.limit, m.act.choice, size) then multiset{m.act.choice}
    else if m.act.MallocAct? && size != 0 && CanGive(w.live, g.limit, m.act.choice, size)
      then multiset{m.act.choice}
    else multiset{}
  }

  /** What a move gives back to the system: an intact block at the end of its free, or a plain one. */
  function GivesBack(w: World, m: Move): multiset<nat>
    requires m.thread < |w.threads|
  {
    match w.threads[m.thread]
    case CurrentTaken(r, ok) => if ok then multiset{r.rawPtr} else multiset{}
    case Unknown(p) => multiset{p}
    case _ => multiset{}
  }

  /** What a move keeps from the system: a damaged block at the end of its free. */
  function Keeps(w: World, m: Move): set<nat>
    requires m.thread < |w.threads|
  {
    match w.threads[m.thread]
    case CurrentTaken(r, ok) => if ok then {} else {r.rawPtr}
    case _ => {}
  }

  /** Each step hands out, gives back and keeps exactly that, and what is outstanding follows. */
  lemma StepBalance(g: Setting, w: World, m: Move, w': World)
    requires Moves(g, w, m, w') && m.thread < |w.threads|
    ensures w'.past.mallocs == w.past.mallocs + HandsOut(g, w, m)
    ensures w'.past.releases == w.past.releases + GivesBack(w, m)
    ensures w'.past.retained == w.past.retained + Keeps(w, m)
    ensures forall raw ::
      raw in w'.live <==> (raw in w.live || raw in HandsOut(g, w, m)) && raw !in GivesBack(w, m)
  {
    hide Flat, Sane, Wrap, Insert, Erase, StatusOf, CanGive, TotalFor, MayFree, RecordFor, PeakStep, Take, Next,
      Enabled;
    var pc, a := w.threads[m.thread], m.act;
    if Quiet(pc, a) {
      QuietRest(g, w, m.thread, a);
      QuietIsBalanced(g, w, m);
    } else if pc.Drawn? && a.MallocAct? {
      TakeBalance(g, w, m, w');
    } else if pc.Idle? || pc.Drawn? {
      IdleBalance(g, w, m, w');
    } else {
      EndBalance(g, w, m, w');
    }
  }

  lemma QuietIsBalanced(g: Setting, w: World, m: Move)
    requires Shaped(w.shards) && Enabled(g, w, m.thread, m.act) && Quiet(w.threads[m.thread], m.act)
    ensures HandsOut(g, w, m) == GivesBack(w, m) == multiset{} && Keeps(w, m) == {}
  {
    hide Flat, Sane, CanGive, TotalFor, MayFree;
  }

  lemma TakeBalance(g: Setting, w: World, m: Move, w': World)
    requires Moves(g, w, m, w') && m.thread < |w.threads| && w.threads[m.thread].Drawn? && m.act.MallocAct?
    ensures var out := HandsOut(g, w, m);
      && w'.past.mallocs == w.past.mallocs + out && w'.past.releases == w.past.releases
      && w'.past.retained == w.past.retained
      && forall raw :: raw in w'.live <==> raw in w.live || raw in out
  {
    hide Flat, CanGive, TotalFor, RecordFor, Sane;
  }

  lemma IdleBalance(g: Setting, w: World, m: Move, w': World)
    requires Moves(g, w, m, w') && m.thread < |w.threads| && (w.threads[m.thread].Idle? || w.threads[m.thread].Drawn?)
    requires !Quiet(w.threads[m.thread], m.act) && !(w.threads[m.thread].Drawn? && m.act.MallocAct?)
    ensures var out := HandsOut(g, w, m);
      && w'.past.mallocs == w.past.mallocs + out && w'.past.releases == w.past.releases
      && w'.past.retained == w.past.retained
      && forall raw :: raw in w'.live <==> raw in w.live || raw in out
  {
    hide Flat, CanGive, TotalFor, RecordFor, Sane, Erase, StatusOf, Take, MayFree;
  }

  lemma EndBalance(g: Setting, w: World, m: Move, w': World)
    requires Moves(g, w, m, w') && m.thread < |w.threads|
    requires w.threads[m.thread].Counted? || w.threads[m.thread].CurrentTaken? || w.threads[m.thread].Unknown?
    ensures HandsOut(g, w, m) == multiset{} && w'.past.mallocs == w.past.mallocs
    ensures w'.past.releases == w.past.releases + GivesBack(w, m)
    ensures w'.past.retained == w.past.retained + Keeps(w, m)
    ensures forall raw :: raw in w'.live <==> raw in w.live && raw !in GivesBack(w, m)
  {
    hide Flat, CanGive, TotalFor, RecordFor, Sane, Insert, MayFree;
  }

  /** All that the first `k` moves gave back. */
  ghost function GivenBack(run: seq<World>, moves: seq<Move>, k: nat): multiset<nat>
    requires k <= |moves| && k <= |run|
    requires forall j :: 0 <= j < k ==> moves[j].thread < |run[j].threads|
  {
    if k == 0 then multiset{} else GivenBack(run, moves, k - 1) + GivesBack(run[k - 1], moves[k - 1])
  }

  lemma MoversExist(g: Setting, run: seq<World>, moves: seq<Move>)
    requires IsRun(g, run, moves)
    ensures |run| == |moves| + 1 && forall j :: 0 <= j < |moves| ==> moves[j].thread < |run[j].threads|
  {
    hide Next;
    forall j | 0 <= j < |moves| ensures moves[j].thread < |run[j].threads| {
      assert Moves(g, run[j], moves[j], run[j + 1]);
    }
  }

  /**
   Over every run, each block was given back as often as a free of it came to its end with nothing wrong,
   or as a plain block was freed.
   */
  lemma {:induction false} ReleasesAreEndedFrees(g: Setting, run: seq<World>, moves: seq<Move>, k: nat)
    requires IsRun(g, run, moves) && k < |run|
    ensures |run| == |moves| + 1 && forall j :: 0 <= j < |moves| ==> moves[j].thread < |run[j].threads|
    ensures run[k].past.releases == GivenBack(run, moves, k)
  {
    hide Next, Enabled, Begin, GivesBack;
    MoversExist(g, run, moves);
    if k == 0 {
      NothingBegun(run[0]);
    } else {
      ReleasesAreEndedFrees(g, run, moves, k - 1);
      assert Moves(g, run[k - 1], moves[k - 1], run[k]);
      StepBalance(g, run[k - 1], moves[k - 1], run[k]);
    }
  }

  /** With move `j` a thread ends the free of the block at `raw`, which it found damaged. */
  ghost predicate KeptAt(run: seq<World>, moves: seq<Move>, j: nat, raw: nat) {
    j < |moves| && j < |run| && moves[j].thread < |run[j].threads| && raw in Keeps(run[j], moves[j])
  }

  /**
   Over every run, a block is retained exactly if some thread took its record out, found it damaged and
   came to the end of that free.
   */
  lemma {:induction false} RetainedIffDamaged(g: Setting, run: seq<World>, moves: seq<Move>, k: nat, raw: nat)
    requires IsRun(g, run, moves) && k < |run|
    ensures raw in run[k].past.retained <==> exists j :: 0 <= j < k && KeptAt(run, moves, j, raw)
  {
    hide Next, Enabled, Begin, Keeps;
    if k == 0 {
      NothingBegun(run[0]);
    } else {
      MoversExist(g, run, moves);
      RetainedIffDamaged(g, run, moves, k - 1, raw);
      assert Moves(g, run[k - 1], moves[k - 1], run[k]);
      StepBalance(g, run[k - 1], moves[k - 1], run[k]);
      assert raw in Keeps(run[k - 1], moves[k - 1]) <==> KeptAt(run, moves, k - 1, raw);
    }
  }

  /** What was kept had been taken out of the tracker and found damaged. */
  lemma KeptWasDamaged(g: Setting, run: seq<World>, moves: seq<Move>, k: nat, raw: nat)
    returns (i: nat, j: nat, t: nat, r: Record)
    requires IsRun(g, run, moves) && KeptAt(run, moves, k, raw)
    ensures i < j < k && r.rawPtr == raw && t == moves[k].thread
    ensures BegunAt(run, moves, i, t, r) && CheckedAt(run, moves, j, t, r, false)
  {
    t := moves[k].thread;
    r := run[k].threads[t].r;
    i, j := FreesWereChecked(g, run, moves, k, t);
  }

  /** No check of the run finds a damaged block. */
  predicate NoDamage(moves: seq<Move>) {
    forall j :: 0 <= j < |moves| ==> moves[j].act != CheckAct(false)
  }

  /**
   Without damage nothing is retained: between calls every outstanding block is recorded or plain, and
   was given back exactly as often as the frees of it that came to an end.
   */
  lemma NothingIsRetained(g: Setting, run: seq<World>, moves: seq<Move>, k: nat)
    requires IsRun(g, run, moves) && k < |run| && NoDamage(moves)
    ensures run[k].past.retained == {} && Shaped(run[k].shards)
    ensures Quiescent(run[k]) ==>
      forall raw :: raw in run[k].live ==> raw in run[k].plain || exists p :: RecordedAt(run[k], p, raw)
  {
    hide IsRun, Quiescent, Flat, KeptAt;
    forall raw ensures raw !in run[k].past.retained {
      RetainedIffDamaged(g, run, moves, k, raw);
      if j :| 0 <= j < k && KeptAt(run, moves, j, raw) {
        var a, b, t, r := KeptWasDamaged(g, run, moves, j, raw);
        assert false;
      }
    }
    RunIsShaped(g, run, moves, k);
    if Quiescent(run[k]) { QuiescentStateIsExact(g, run, moves, k); }
  }

  lemma RunIsShaped(g: Setting, run: seq<World>, moves: seq<Move>, k: nat)
    requires IsRun(g, run, moves) && k < |run|
    ensures Shaped(run[k].shards)
  {
    hide Inv;
    RunIsGood(g, run, moves, k);
    InvShaped(g);
  }

  /** At the end of a free with nothing wrong the block is outstanding no more, and is given back once. */
  lemma IntactBlockIsReleased(g: Setting, run: seq<World>, moves: seq<Move>, k: nat)
    requires IsRun(g, run, moves) && k < |moves| && moves[k].thread < |run[k].threads|
    requires run[k].threads[moves[k].thread].CurrentTaken? && run[k].threads[moves[k].thread].intact
    ensures var w, w' := run[k], run[k + 1]; var raw := w.threads[moves[k].thread].r.rawPtr;
      && raw in w.live && w'.live == w.live - {raw} && w'.past.releases == w.past.releases + multiset{raw}
      && w'.past.retained == w.past.retained && w'.threads == w.threads[moves[k].thread := Idle]
  {
    hide Flat, ShardValid, ShardIndex, LiveOk, IdsOk, Accounts, PeakOk, Matched;
    assert Moves(g, run[k], moves[k], run[k + 1]);
    RunIsGood(g, run, moves, k);
    var t := moves[k].thread;
    assert Owned(Flat(run[k].shards), run[k].threads, Held(t)) == Some(run[k].threads[t].r);
  }
}
