/**
 The step machine refines the sequential manager: a thread that runs a call alone, from its first step
 to its last, leaves the blocks, the records, the counters and the next id that the call leaves there.
 */
module ConcurrentAlone {
  import opened Words
  import opened Wrappers
  import opened Layout
  import opened Block
  import opened Records
  import opened TrackerSpec
  import opened Stats
  import opened Sampling
  import opened SystemHeap
  import opened ManagerSpec
  import opened Concurrent
  import opened ConcurrentProofs
  import opened ConcurrentRuns

  /** Thread `i` takes these steps one after another, and no other thread moves. */
  ghost predicate Solo(g: Setting, w: World, i: nat, acts: seq<Act>, w': World)
    decreases |acts|
  {
    if acts == [] then w' == w else
    Shaped(w.shards) && Enabled(g, w, i, acts[0]) && Solo(g, Next(g, w, i, acts[0]), i, acts[1..], w')
  }

  lemma {:induction false} SoloJoins(g: Setting, w: World, i: nat, a: seq<Act>, v: World, b: seq<Act>, w': World)
    requires Solo(g, w, i, a, v) && Solo(g, v, i, b, w')
    ensures Solo(g, w, i, a + b, w')
    decreases |a|
  {
    hide Enabled, Next, Shaped;
    if a == [] {
      assert a + b == b;
    } else {
      assert (a + b)[1..] == a[1..] + b;
      SoloJoins(g, Next(g, w, i, a[0]), i, a[1..], v, b, w');
    }
  }

  lemma SoloStep(g: Setting, w: World, i: nat, a: Act) returns (w': World)
    requires Shaped(w.shards) && Enabled(g, w, i, a)
    ensures w' == Next(g, w, i, a) && Solo(g, w, i, [a], w')
  {
    hide Enabled, Next;
    w' := Next(g, w, i, a);
    assert [a][1..] == [];
    assert Solo(g, w', i, [], w');
  }

  function Gos(n: nat): (acts: seq<Act>)
    ensures |acts| == n
  {
    seq(n, _ => GoAct)
  }

  /** Counter steps that thread `pc` has ahead of it without a choice of its own. */
  function StepsLeft(pc: Pc): nat {
    match pc
    case Placed(_) => 6
    case TotalAdded(_) => 5
    case CountAdded(_) => 4
    case ActiveAdded(_) => 3
    case CurrentAdded(_, _) => 2
    case PeakLoaded(_, _, _, _, _, _) => 1
    case Checked(_, _) => 4
    case FreedAdded(_, _) => 3
    case FreesAdded(_, _) => 2
    case ActiveTaken(_, _) => 1
    case _ => 0
  }

  /** Only counters, the history of the peak and thread `i` differ. */
  ghost predicate OnlyCounts(w: World, w': World, i: nat) {
    && w'.shards == w.shards && w'.live == w.live && w'.plain == w.plain && w'.nextId == w.nextId
    && w'.past.mallocs == w.past.mallocs && w'.past.releases == w.past.releases
    && w'.past.retained == w.past.retained
    && |w'.threads| == |w.threads| && forall j :: 0 <= j < |w.threads| && j != i ==> w'.threads[j] == w.threads[j]
  }

  lemma CounterStep(g: Setting, w: World, i: nat)
    requires g.limit < W64 && Shaped(w.shards) && i < |w.threads| && StepsLeft(w.threads[i]) > 0
    ensures Enabled(g, w, i, GoAct) && Once(g, w, i) == Next(g, w, i, GoAct)
    ensures OnlyCounts(w, Once(g, w, i), i) && StepsLeft(Once(g, w, i).threads[i]) >= StepsLeft(w.threads[i]) - 1
  {
    hide PeakStep, PlainStep, PlainFreeStep, Take, EraseStep, ReleaseStep, Insert, Flat, Sane, Wrap, MayFree;
    if w.threads[i].PeakLoaded? { PeakStepRest(w, i, false); }
  }

  lemma {:induction false} AloneIsSolo(g: Setting, w: World, i: nat, n: nat)
    requires g.limit < W64 && Shaped(w.shards) && i < |w.threads| && n <= StepsLeft(w.threads[i])
    ensures Solo(g, w, i, Gos(n), Alone(g, w, i, n)) && OnlyCounts(w, Alone(g, w, i, n), i)
    decreases n
  {
    hide Next, Enabled, Once;
    if n > 0 {
      CounterStep(g, w, i);
      AloneIsSolo(g, Once(g, w, i), i, n - 1);
      assert Gos(n)[0] == GoAct && Gos(n)[1..] == Gos(n - 1);
    }
  }

  // ---------- allocate

  /** The sequential state has the world's blocks, records, counters and next id. */
  ghost predicate Matches(w: World, s: State) {
    s.live == w.live && s.shards == w.shards && s.counters == w.counters && s.nextId == w.nextId
  }

  /** The update of the counters by a thread that has placed its block, and the insert. */
  lemma FinishAlone(g: Setting, w: World, i: nat, r: Record) returns (acts: seq<Act>, w': World)
    requires g.limit < W64 && Shaped(w.shards) && i < |w.threads| && w.threads[i] == Placed(r)
    ensures Solo(g, w, i, acts, w') && w'.threads == w.threads[i := Idle]
    ensures w'.shards == Insert(w.shards, r.userPtr, r) && w'.counters == OnAlloc(w.counters, r.requested)
    ensures w'.live == w.live && w'.plain == w.plain && w'.nextId == w.nextId
    ensures w'.past.mallocs == w.past.mallocs && w'.past.releases == w.past.releases
    ensures w'.past.retained == w.past.retained
  {
    hide Alone, Insert, OnAlloc, Flat, Once, MayFree;
    AloneIsSolo(g, w, i, 6);
    AloneUpdatesOnAlloc(g, w, i);
    AloneKeepsRecord(g, w, i, 6);
    var v := Alone(g, w, i, 6);
    w' := SoloStep(g, v, i, GoAct);
    acts := Gos(6) + [GoAct];
    SoloJoins(g, w, i, Gos(6), v, [GoAct], w');
    assert w'.threads == w.threads[i := Idle];
  }

  /** The update steps are about one record. */
  lemma {:induction false} AloneKeepsRecord(g: Setting, w: World, i: nat, n: nat)
    requires g.limit < W64 && Shaped(w.shards) && i < |w.threads| && n <= StepsLeft(w.threads[i])
    requires Holding(w.threads[i]).Some?
    ensures Holding(Alone(g, w, i, n).threads[i]) == Holding(w.threads[i])
    ensures InCheck(Alone(g, w, i, n).threads[i]) == InCheck(w.threads[i])
    decreases n
  {
    hide Next, Enabled, Once;
    if n > 0 {
      CounterStep(g, w, i);
      StepKeepsRecord(g, w, i);
      AloneKeepsRecord(g, Once(g, w, i), i, n - 1);
    }
  }

  /** The outcome of the check that a freeing thread has made. */
  function InCheck(pc: Pc): Option<bool> {
    match pc
    case Checked(_, ok) => Some(ok)
    case FreedAdded(_, ok) => Some(ok)
    case FreesAdded(_, ok) => Some(ok)
    case ActiveTaken(_, ok) => Some(ok)
    case CurrentTaken(_, ok) => Some(ok)
    case _ => None
  }

  lemma StepKeepsRecord(g: Setting, w: World, i: nat)
    requires g.limit < W64 && Shaped(w.shards) && i < |w.threads| && StepsLeft(w.threads[i]) > 0
    ensures Holding(Once(g, w, i).threads[i]) == Holding(w.threads[i])
    ensures InCheck(Once(g, w, i).threads[i]) == InCheck(w.threads[i])
  {
    hide PeakStep, PlainStep, PlainFreeStep, Take, EraseStep, ReleaseStep, Insert, Flat, Sane, Wrap, MayFree;
    if w.threads[i].PeakLoaded? { PeakStepRest(w, i, false); }
  }

  /**
   A thread that runs an allocation alone does what the sequential `allocate` does: the same answer from
   the system, the same record, the same counters and the same next id.
   */
  lemma AllocatesAlone(g: Setting, w: World, i: nat, q: Request, s: State) returns (acts: seq<Act>, w': World)
    requires g.limit < W64 && Shaped(w.shards) && i < |w.threads| && w.threads[i].Idle?
    requires Sane(g.c, q.size, q.alignment, q.tag, q.env)
    requires Matches(w, s) && |s.mem| == g.limit && s.initialised && !s.guarded
    ensures Solo(g, w, i, acts, w') && w'.threads == w.threads
    ensures var (s', p) := Allocate(g.c, s, q.size, q.alignment, q.tag, q.env);
      && Matches(w', s')
      && w'.past.mallocs == w.past.mallocs + (if p != 0 then multiset{q.env.choice} else multiset{})
      && w'.past.releases == w.past.releases && w'.past.retained == w.past.retained
      && w'.plain == w.plain + if p != 0 && !PicksRequest(g, q, s) then {p} else {}
  {
    hide Insert, OnAlloc, Flat, Decide, CanGive, MayFree, CalculateTotalSize, UserAddress, Wrap, Sane, RecordFor,
      AllocateTracked;
    var v := SoloStep(g, w, i, AllocAct(q));
    if PicksRequest(g, q, s) {
      acts, w' := TakesAlone(g, v, i, w.nextId, q);
      TrackedDoes(g, s.(nextId := Wrap(s.nextId + 1), countdown := Left(g.c, AskedFor(q, s))), w.nextId, q);
    } else {
      if CanGive(s.live, g.limit, q.env.choice, q.size) { PlaceIsNotNull(s.live, g.limit, q.env.choice, q.size); }
      w' := SoloStep(g, v, i, PlainAct(q.size, q.env.choice));
      acts := [PlainAct(q.size, q.env.choice)];
    }
    SoloJoins(g, w, i, [AllocAct(q)], v, acts, w');
    acts := [AllocAct(q)] + acts;
    assert w'.threads == w.threads;
  }

  function AskedFor(q: Request, s: State): Asked {
    Asked(s.nextId, q.size, s.countdown, q.env.firstDraw, q.env.nextDraw)
  }

  /** Whether the sampler picks this request in this state. */
  predicate PicksRequest(g: Setting, q: Request, s: State) { Picked(g.c, AskedFor(q, s)) }

  /** The sequential tracked path, as far as blocks, records and counters go. */
  lemma TrackedDoes(g: Setting, s: State, id: nat, q: Request)
    requires g.limit < W64 && |s.mem| == g.limit && Shaped(s.shards) && Sane(g.c, q.size, q.alignment, q.tag, q.env)
    ensures var (s', p) := AllocateTracked(g.c, s, id, q.size, q.alignment, q.tag, q.env);
      var total, choice := TotalFor(g, q), q.env.choice;
      if total == 0 || !CanGive(s.live, g.limit, choice, total) then p == 0 && s' == s
      else choice + MaxOffset(q.alignment) <= W64
           && var r := RecordFor(g, choice, total, id, q);
           && p == r.userPtr != 0 && s'.live == s.live[choice := total] && s'.shards == Insert(s.shards, p, r)
           && s'.counters == OnAlloc(s.counters, q.size) && s'.nextId == s.nextId
  {
    hide Insert, OnAlloc, CanGive, CalculateTotalSize, UserAddress, Initialised;
    if TotalFor(g, q) != 0 && CanGive(s.live, g.limit, q.env.choice, TotalFor(g, q)) {
      PlaceIsNotNull(s.live, g.limit, q.env.choice, TotalFor(g, q));
      PartsFitInTotal(q.env.choice, q.size, EffectiveAlignment(q.alignment), FooterSize(g.c));
    }
  }

  lemma PlaceIsNotNull(live: map<nat, nat>, limit: nat, choice: nat, size: nat)
    requires CanGive(live, limit, choice, size)
    ensures choice != 0 && choice + size <= limit
  {
  }

  lemma TakesAlone(g: Setting, w: World, i: nat, id: nat, q: Request) returns (acts: seq<Act>, w': World)
    requires g.limit < W64 && Shaped(w.shards) && i < |w.threads| && w.threads[i] == Drawn(id, q)
    requires Sane(g.c, q.size, q.alignment, q.tag, q.env)
    ensures Solo(g, w, i, acts, w') && w'.threads == w.threads[i := Idle]
    ensures w'.nextId == w.nextId && w'.plain == w.plain
    ensures w'.past.releases == w.past.releases && w'.past.retained == w.past.retained
    ensures var total, choice := TotalFor(g, q), q.env.choice;
      if total == 0 || !CanGive(w.live, g.limit, choice, total)
      then w'.live == w.live && w'.shards == w.shards && w'.counters == w.counters
           && w'.past.mallocs == w.past.mallocs
      else choice + MaxOffset(q.alignment) <= W64
           && var r := RecordFor(g, choice, total, id, q);
           && w'.live == w.live[choice := total] && w'.shards == Insert(w.shards, r.userPtr, r)
           && w'.counters == OnAlloc(w.counters, q.size)
           && w'.past.mallocs == w.past.mallocs + multiset{choice}
  {
    hide Insert, OnAlloc, Flat, CanGive, MayFree, CalculateTotalSize, UserAddress, RecordFor, Sane;
    var v := SoloStep(g, w, i, MallocAct(q.env.choice));
    if TotalFor(g, q) == 0 || !CanGive(w.live, g.limit, q.env.choice, TotalFor(g, q)) {
      acts, w' := [MallocAct(q.env.choice)], v;
    } else {
      BlockFits(g, w, id, q, q.env.choice);
      acts, w' := FinishAlone(g, v, i, RecordFor(g, q.env.choice, TotalFor(g, q), id, q));
      SoloJoins(g, w, i, [MallocAct(q.env.choice)], v, acts, w');
      acts := [MallocAct(q.env.choice)] + acts;
      assert w'.threads == w.threads[i := Idle];
    }
  }

  // ---------- deallocate

  /** A thread that has checked the block of `r` takes it out of the counters, and releases or keeps it. */
  lemma ReleasesAlone(g: Setting, w: World, i: nat, r: Record, intact: bool) returns (acts: seq<Act>, w': World)
    requires g.limit < W64 && Shaped(w.shards) && i < |w.threads| && w.threads[i] == Checked(r, intact)
    ensures Solo(g, w, i, acts, w') && w'.threads == w.threads[i := Idle]
    ensures w'.shards == w.shards && w'.counters == OnFree(w.counters, r.requested) && w'.nextId == w.nextId
    ensures w'.live == (if intact then w.live - {r.rawPtr} else w.live) && w'.plain == w.plain
    ensures w'.past.mallocs == w.past.mallocs
    ensures w'.past.releases == w.past.releases + if intact then multiset{r.rawPtr} else multiset{}
    ensures w'.past.retained == w.past.retained + if intact then {} else {r.rawPtr}
  {
    hide Alone, OnFree, Flat, Once, MayFree;
    AloneIsSolo(g, w, i, 4);
    AloneUpdatesOnFree(g, w, i);
    AloneKeepsRecord(g, w, i, 4);
    var v := Alone(g, w, i, 4);
    assert v.threads[i] == CurrentTaken(r, intact);
    w' := SoloStep(g, v, i, GoAct);
    acts := Gos(4) + [GoAct];
    SoloJoins(g, w, i, Gos(4), v, [GoAct], w');
    assert w'.threads == w.threads[i := Idle];
  }

  /**
   A thread that frees `p` alone does what the sequential `deallocate` does. Of a tracked block, it
   gives the raw memory back once if the check finds nothing wrong, and keeps it if it does.
   */
  lemma FreesAlone(g: Setting, w: World, i: nat, p: nat, s: State) returns (acts: seq<Act>, w': World)
    requires g.limit < W64 && TrackerSpec.Valid(w.shards) && i < |w.threads| && w.threads[i].Idle? && MayFree(w, p)
    requires Matches(w, s) && |s.mem| == g.limit && CanCheck(g.c, s, p)
    requires p != 0 && p !in Flat(w.shards) && !Quarantined(w.shards, p) ==> BackLink(s.mem, p) == None
    ensures Solo(g, w, i, acts, w') && w'.threads == w.threads
    ensures Matches(w', Deallocate(g.c, s, p)) && w'.past.mallocs == w.past.mallocs
    ensures p in Flat(w.shards) ==>
      var raw, s' := Flat(w.shards)[p].rawPtr, Deallocate(g.c, s, p);
      var intact := Verdict(s.mem, raw, FooterSize(g.c)) == NoCorruption;
      && s'.live == (if intact then s.live - {raw} else s.live)
      && w'.past.releases == w.past.releases + (if intact then multiset{raw} else multiset{})
      && w'.past.retained == w.past.retained + if intact then {} else {raw}
  {
    hide Flat, ShardValid, ShardIndex, Erase, StatusOf, OnFree, Verdict, Poisoned, BackLink, Checkable, Quarantined;
    EraseRefines(w.shards, p);
    FlatLookup(w.shards, p);
    var v := SoloStep(g, w, i, FreeAct(p));
    if p in Flat(w.shards) {
      var r := Flat(w.shards)[p];
      var intact := Verdict(s.mem, r.rawPtr, FooterSize(g.c)) == NoCorruption;
      var u := SoloStep(g, v, i, CheckAct(intact));
      acts, w' := ReleasesAlone(g, u, i, r, intact);
      SoloJoins(g, v, i, [CheckAct(intact)], u, acts, w');
      SoloJoins(g, w, i, [FreeAct(p)], v, [CheckAct(intact)] + acts, w');
      acts := [FreeAct(p)] + ([CheckAct(intact)] + acts);
    } else if p == 0 || Quarantined(w.shards, p) {
      acts, w' := [FreeAct(p)], v;
    } else {
      w' := SoloStep(g, v, i, GoAct);
      SoloJoins(g, w, i, [FreeAct(p)], v, [GoAct], w');
      acts := [FreeAct(p)] + [GoAct];
    }
    assert w'.threads == w.threads;
  }

  // ---------- inside a guard

  /** Inside a guard both calls are the system's. */
  lemma GuardedAlone(g: Setting, w: World, i: nat, size: nat, choice: nat, s: State)
    requires g.limit < W64 && Shaped(w.shards) && i < |w.threads| && w.threads[i].Idle?
    requires Matches(w, s) && |s.mem| == g.limit
    ensures Enabled(g, w, i, PlainAct(size, choice))
    ensures var w', (s', p) := Next(g, w, i, PlainAct(size, choice)), RawAlloc(s, size, choice);
      && Matches(w', s') && w'.threads == w.threads && w'.plain == w.plain + (if p != 0 then {p} else {})
      && w'.past.mallocs == w.past.mallocs + if p != 0 then multiset{p} else multiset{}
  {
    hide Flat, CanGive, MayFree;
    if CanGive(s.live, g.limit, choice, size) { PlaceIsNotNull(s.live, g.limit, choice, size); }
    assert w.threads[i := Idle] == w.threads;
  }

  lemma FreesGuardedAlone(g: Setting, w: World, i: nat, p: nat, s: State) returns (w': World)
    requires g.limit < W64 && Shaped(w.shards) && i < |w.threads| && w.threads[i].Idle? && PlainFree(w, p)
    requires Matches(w, s)
    ensures Solo(g, w, i, [GuardedFreeAct(p)] + [GoAct], w') && w'.threads == w.threads
    ensures Matches(w', s.(live := s.live - {p})) && w'.plain == w.plain - {p}
    ensures w'.past.mallocs == w.past.mallocs && w'.past.releases == w.past.releases + multiset{p}
  {
    hide Flat, MayFree;
    var v := SoloStep(g, w, i, GuardedFreeAct(p));
    w' := SoloStep(g, v, i, GoAct);
    SoloJoins(g, w, i, [GuardedFreeAct(p)], v, [GoAct], w');
    assert w'.threads == w.threads;
  }
}
