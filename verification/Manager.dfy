/** The manager as the program holds it: one object over the heap, the tracker and the counters. */
module Manager {
  import opened Words
  import opened Layout
  import opened Block
  import opened Records
  import opened TrackerSpec
  import opened Tracker
  import opened Stats
  import opened Sampling
  import opened SystemHeap
  import opened ManagerSpec
  import opened HeapInvariant
  import opened HeapCalls
  import opened HeapSafety

  class Manager {
    const c: Config
    const heap: Heap
    const tracker: ShardedTracker
    const stats: MemoryStats
    var nextId: nat
    var countdown: int
    var log: seq<Alert>
    var initialised: bool
    var guarded: bool

    ghost function Parts(): set<object>
    {
      {this, heap, heap.mem, stats, tracker} + tracker.Repr
    }

    /** The parts are distinct objects. */
    ghost predicate Separate()
      reads Parts()
    {
      && heap.mem !in tracker.Repr && {heap, stats, this} !! tracker.Repr
      && tracker.Separate()
    }

    ghost function State(): (s: State)
      requires Separate()
      reads Parts()
      ensures Shaped(s.shards)
    {
      ManagerSpec.State(heap.mem[..], heap.live, tracker.State(), stats.State(), nextId, countdown, log, initialised,
                        guarded)
    }

    /** The parts fit together and the heap invariant holds. */
    ghost predicate Valid()
      reads Parts()
    {
      Separate() && Good(c, State())
    }

    constructor (c: Config, size: nat)
      requires size < W64
      ensures Valid() && fresh(Parts()) && this.c == c
      ensures exists mem: seq<Byte> :: |mem| == size && State() == Start(mem)
    {
      this.c := c;
      heap := new Heap(size);
      tracker := new ShardedTracker();
      stats := new MemoryStats();
      nextId, countdown, log, initialised, guarded := 1, 0, [], false, false;
      new;
      StartIsSafe(c, heap.mem[..]);
      assert State() == Start(heap.mem[..]);
    }

    // ---------- allocate

    /** Whether the allocation that drew `id` is tracked; the countdown moves on. */
    method Sample(id: nat, size: nat, env: Env) returns (sampled: bool)
      modifies this`countdown
      ensures (sampled, countdown) == Decide(c, id, size, old(countdown), env.firstDraw, env.nextDraw)
    {
      if c.samplingRateBytes > 0 {
        var left := countdown;
        if left <= 0 { left := env.firstDraw; }
        if Signed(size) < left {
          countdown := left - Signed(size);
          return false;
        }
        countdown := env.nextDraw;
      } else if c.sampleEveryN > 1 {
        if id % c.sampleEveryN != 0 { return false; }
      } else if c.samplingPercentage < 100 {
        if id % 100 >= c.samplingPercentage { return false; }
      }
      return true;
    }

    method AllocateTracked(id: nat, size: nat, alignment: nat, tag: nat, env: Env) returns (user: nat)
      requires Separate() && TrackerSpec.Valid(tracker.State()) && heap.mem.Length < W64
      requires Sane(c, size, alignment, tag, env)
      modifies heap, heap.mem, stats, tracker.Repr, `log
      ensures Separate()
      ensures (State(), user) == ManagerSpec.AllocateTracked(c, old(State()), id, size, alignment, tag, env)
    {
      hide TrackerSpec.Valid, UserAddress, OnAlloc, Initialised, CalculateTotalSize, TrackerSpec.Insert, CanGive, Wrap,
        Flat, ShardIndex;
      var footer := FooterSize(c);
      var align := EffectiveAlignment(alignment);
      var total := CalculateTotalSize(size, align, footer);
      if total == 0 { return 0; }
      var raw := heap.Malloc(total, env.choice);
      if raw == 0 { return 0; }
      GivenFits(old(heap.live), heap.mem.Length, total, env.choice);
      PartsFitInTotal(raw, size, align, footer);
      var finalTag := FinalTag(c, tag, env);
      user := InitBlock(heap.mem, raw, size, align, footer, id, finalTag, c.enableCanary, env.threadId);
      var h := NewHeader(c, raw, id, size, alignment, tag, env);
      var record := NewRecord(h, finalTag, raw, total, env.frames);
      stats.UpdateOnAlloc(size, env.spuriousFailures);
      tracker.Insert(user, record);
      if c.maxHeapBytes > 0 && c.hasWatchdog {
        var current := stats.current;
        if current > c.maxHeapBytes {
          log := log + [LimitExceeded(current, c.maxHeapBytes)];
        }
      }
    }

    method Allocate(size: nat, alignment: nat, tag: nat, env: Env) returns (user: nat)
      requires Valid() && Sane(c, size, alignment, tag, env)
      modifies Parts()
      ensures Valid()
      ensures (State(), user) == ManagerSpec.Allocate(c, old(State()), size, alignment, tag, env)
    {
      hide Good, Sane, ManagerSpec.AllocateTracked, Decide, TrackerSpec.Valid, Added, AddedRaw, OthersUnchanged,
        SameHeap, OnlyLimitAlerts, Untracked, CanGive, Flat, HeapInv, FinalTag, GetsTracked;
      ghost var s := State();
      GoodParts(c, s);
      AllocateKeeps(c, s, size, alignment, tag, env);
      if guarded || !initialised {
        user := heap.Malloc(size, env.choice);
        return;
      }
      var id := nextId;
      nextId := Wrap(nextId + 1);
      var sampled := Sample(id, size, env);
      if !sampled {
        user := heap.Malloc(size, env.choice);
        return;
      }
      user := AllocateTracked(id, size, alignment, tag, env);
    }

    // ---------- deallocate

    /** Frees `p`, as long as what it leads to is an outstanding block. */
    method Free(p: nat)
      requires Separate() && TrackerSpec.Valid(tracker.State()) && CanFree(c, State(), p)
      modifies Parts()
      ensures Separate() && State() == ManagerSpec.Deallocate(c, old(State()), p)
    {
      hide TrackerSpec.Valid, Verdict, Poisoned, OnFree, BackLink, TrackerSpec.Erase, StatusOf, Checkable;
      if p == 0 { return; }
      FlatLookup(tracker.State(), p);
      EraseRefines(tracker.State(), p);
      var status, found := tracker.Erase(p);
      match status
      case Success => ReleaseBlock(p, found.value);
      case DoubleFreeDetected => log := log + [Corrupted(p, DoubleFree)];
      case NotFound => FreeUnknown(p);
    }

    /** A pointer the tracker does not know: the back-link decides what is freed. */
    method FreeUnknown(p: nat)
      requires Separate() && CanFree(c, State(), p) && p != 0 && StatusOf(tracker.State(), p) == NotFound
      modifies heap, heap.mem
      ensures Separate()
      ensures State() == match BackLink(old(heap.mem[..]), p)
        case Some(header) =>
          RawFree(old(State()).(mem := Poisoned(old(heap.mem[..]), header, c.canaryFooterSize)), header)
        case None => RawFree(old(State()), p)
    {
      hide Verdict, Poisoned, BackLink, StatusOf, Checkable, Flat;
      match BackLink(heap.mem[..], p)
      case Some(header) =>
        PoisonBlock(heap.mem, header, c.canaryFooterSize);
        heap.Free(header);
      case None => heap.Free(p);
    }

    method ReleaseBlock(p: nat, r: Record)
      requires Separate() && Poisonable(heap.mem[..], r.rawPtr, FooterSize(c))
      requires r.rawPtr in heap.live && r.rawPtr != 0
      modifies heap, heap.mem, stats, `log
      ensures Separate() && State() == Release(c, old(State()), p, r)
    {
      hide Verdict, Poisoned, OnFree, TrackerSpec.Valid, Flat;
      var footer := FooterSize(c);
      var verdict := VerifyCanary(heap.mem, r.rawPtr, footer);
      if verdict != NoCorruption {
        log := log + [Corrupted(p, verdict)];
      }
      stats.UpdateOnFree(r.requested);
      if verdict == NoCorruption {
        PoisonBlock(heap.mem, r.rawPtr, footer);
        heap.Free(r.rawPtr);
      }
    }

    method Deallocate(p: nat)
      requires Valid() && Freeable(State(), p)
      modifies Parts()
      ensures Valid() && old(CanCheck(c, State(), p)) && State() == ManagerSpec.Deallocate(c, old(State()), p)
    {
      hide Good, TrackerSpec.Valid, Freeable, ManagerSpec.Deallocate, CanFree;
      GoodParts(c, State());
      FreeKeeps(c, State(), p);
      FreeableCanFree(c, State(), p);
      Free(p);
    }

    /** `track_free`. */
    method TrackFree(p: nat)
      requires Valid() && Allowed(c, State(), FreeOp(p))
      modifies Parts()
      ensures Valid() && old(Good(c, State())) && State() == Step(c, old(State()), FreeOp(p))
    {
      hide Good, TrackerSpec.Valid, ManagerSpec.Deallocate, Freeable, Untracked;
      ghost var s := State();
      if !guarded { FreeKeeps(c, s, p); }
      if p == 0 { return; }
      if guarded {
        PlainFreeKeeps(c, s, p);
        heap.Free(p);
        return;
      }
      Deallocate(p);
    }

    // ---------- reallocate

    method SystemRealloc(p: nat, n: nat, choice: nat) returns (q: nat)
      requires Separate() && (p != 0 ==> p in heap.live && p + heap.live[p] <= heap.mem.Length)
      modifies heap, heap.mem
      ensures Separate() && (State(), q) == RawRealloc(old(State()), p, n, choice)
    {
      hide CanGive, Put;
      if p == 0 {
        q := heap.Malloc(n, choice);
      } else if n == 0 {
        heap.Free(p);
        q := 0;
      } else {
        q := heap.Realloc(p, n, choice);
      }
    }

    /** Checks the old block of a reallocation; damage is only reported. */
    method CheckBlock(p: nat, r: Record)
      requires Separate() && Checkable(heap.mem[..], r.rawPtr, FooterSize(c))
      modifies `log
      ensures Separate() && State() == CheckOld(c, old(State()), p, r)
    {
      hide Verdict, Flat;
      if c.enableCanary {
        var verdict := VerifyCanary(heap.mem, r.rawPtr, c.canaryFooterSize);
        if verdict != NoCorruption { log := log + [Corrupted(p, verdict)]; }
      }
    }

    /** Checks the old block and allocates the new one. */
    method Grow(p: nat, r: Record, n: nat, env: Env) returns (q: nat)
      requires Valid() && p in tracker.Contents() && tracker.Contents()[p] == r && n < W64 && EnvOk(c, env)
      modifies Parts()
      ensures Valid() && old(Good(c, State())) && (State(), q) == Grown(c, old(State()), p, n, env)
    {
      hide Good, TrackerSpec.Valid, ManagerSpec.Allocate, CheckOld, Checkable, Flat, Sane, EnvOk;
      GoodParts(c, State());
      ReadyToGrow(c, State(), p, n, env);
      CheckBlock(p, r);
      q := Allocate(n, r.alignment, r.tag, env);
    }

    /** Moves a tracked block: a new one is allocated, the payload copied, the old one freed. */
    method MoveTracked(p: nat, r: Record, n: nat, env: Env) returns (q: nat)
      requires Valid() && p in tracker.Contents() && tracker.Contents()[p] == r && n < W64 && EnvOk(c, env)
      modifies Parts()
      ensures Valid() && old(Good(c, State())) && (State(), q) == ReallocateTracked(c, old(State()), p, n, env)
    {
      hide Good, TrackerSpec.Valid, ManagerSpec.Deallocate, Flat, EnvOk, Grown, Put, IntactKept;
      ghost var s := State();
      GoodParts(c, s);
      GrownBounds(c, s, p, n, env);
      CopiedKeeps(c, s, p, n, env);
      q := Grow(p, r, n, env);
      if q == 0 { return; }
      var kept := Kept(r.requested, n);
      Store(heap.mem, q, heap.mem[p..p + kept]);
      Deallocate(p);
    }

    /** `track_realloc`. */
    method TrackRealloc(p: nat, n: nat, env: Env) returns (q: nat)
      requires Valid() && MayRealloc(c, State(), p, n, env)
      modifies Parts()
      ensures Valid() && old(Good(c, State())) && (State(), q) == HeapSafety.TrackRealloc(c, old(State()), p, n, env)
    {
      hide Good, TrackerSpec.Valid, ManagerSpec.Deallocate, ManagerSpec.Allocate, Freeable, Flat, Sane, EnvOk,
        ReallocateTracked, RawRealloc, Untracked;
      ghost var s := State();
      GoodParts(c, s);
      ReallocReady(c, s, p, n, env);
      if p == 0 || PlainLive(s, p) { PlainReallocKeeps(c, s, p, n, env.choice); }
      if guarded || !initialised {
        q := SystemRealloc(p, n, env.choice);
      } else if p == 0 {
        q := Allocate(n, c.alignment, 0, env);
      } else if n == 0 {
        Deallocate(p);
        q := 0;
      } else {
        var found := tracker.Find(p);
        match found
        case None => q := SystemRealloc(p, n, env.choice);
        case Some(r) => q := MoveTracked(p, r, n, env);
      }
    }
  }

  lemma PlainFreeKeeps(c: Config, s: State, p: nat)
    requires Good(c, s) && PlainLive(s, p)
    ensures Good(c, RawFree(s, p))
  {
    hide HeapInv, Untracked;
    assert Shaped(s.shards) by { GoodParts(c, s); }
    RawFreeKeeps(c, s, p);
  }

  /** The frees that `Free` makes hit outstanding blocks. */
  ghost predicate CanFree(c: Config, s: State, p: nat)
    requires Shaped(s.shards)
  {
    && CanCheck(c, s, p)
    && (p in Flat(s.shards) ==> Flat(s.shards)[p].rawPtr in s.live && Flat(s.shards)[p].rawPtr != 0)
    && (p != 0 && StatusOf(s.shards, p) == NotFound ==>
          match BackLink(s.mem, p) case Some(h) => h in s.live && h != 0 case None => p in s.live)
  }

  lemma FreeableCanFree(c: Config, s: State, p: nat)
    requires Good(c, s) && Freeable(s, p)
    ensures CanFree(c, s, p)
  {
    hide Flat, ShardValid, ShardIndex, CountersOk, BlocksOk, BackLink, Quarantined, Untracked, ManagerSpec.Deallocate;
    FreeKeeps(c, s, p);
    EraseRefines(s.shards, p);
    LiveInMemory(s.live, |s.mem|);
    RawsAreLive(c, s.mem, s.live, Flat(s.shards));
  }

  lemma GoodParts(c: Config, s: State)
    requires Good(c, s)
    ensures |s.mem| < W64 && TrackerSpec.Valid(s.shards)
  {
  }

  lemma GivenFits(live: map<nat, nat>, limit: nat, size: nat, choice: nat)
    requires MallocResult(live, limit, size, choice) != 0
    ensures MallocResult(live, limit, size, choice) + size <= limit
  {
  }

  /** What a reallocation of a tracked block needs of the state before. */
  lemma ReadyToGrow(c: Config, s: State, p: nat, n: nat, env: Env)
    requires Good(c, s) && p in Flat(s.shards) && n < W64 && EnvOk(c, env)
    ensures var r := Flat(s.shards)[p];
      && Checkable(s.mem, r.rawPtr, FooterSize(c))
      && Sane(c, n, r.alignment, r.tag, env) && Good(c, CheckOld(c, s, p, r))
  {
    hide Flat, HeapInv, Verdict, Sane, EnvOk, Checkable;
    GoodParts(c, s);
    SaneAgain(c, s, p, n, env);
    OnlyLogMatters(c, s, CheckOld(c, s, p, Flat(s.shards)[p]).log);
  }

  /** Reallocating a block that no record describes keeps the heap good. */
  lemma PlainReallocKeeps(c: Config, s: State, p: nat, n: nat, choice: nat)
    requires Good(c, s) && (p == 0 || PlainLive(s, p))
    ensures p != 0 ==> p + s.live[p] <= |s.mem|
    ensures Good(c, RawRealloc(s, p, n, choice).0)
  {
    hide HeapInv, Put, CanGive, Untracked, LiveOk, Flat, BlocksOk, CountersOk, ShardValid, OthersUnchanged;
    UnfoldInv(c, s);
    LiveInMemory(s.live, |s.mem|);
    RawAllocKeeps(c, s, n, choice);
    if p != 0 {
      RawFreeKeeps(c, s, p);
      var freed := RawFree(s, p);
      RawAllocKeeps(c, freed, n, choice);
      var (given, q) := RawAlloc(freed, n, choice);
      if q != 0 {
        assert Shaped(given.shards) && ClientOwns(given, q, Kept(s.live[p], n));
        OwnWriteKeeps(c, given, q, s.mem[p..p + Kept(s.live[p], n)]);
      }
    }
  }
}
