/**
 Safety over whole runs of the tracked heap: any sequence of allocations, frees, reallocations,
 client writes and writes by others outside the outstanding blocks.
 */
module HeapSafety {
  import opened Words
  import opened Layout
  import opened Block
  import opened BlockProofs
  import opened Records
  import opened TrackerSpec
  import opened Stats
  import opened Sampling
  import opened SystemHeap
  import opened ManagerSpec
  import opened HeapInvariant
  import opened HeapCalls

  datatype Op =
    | AllocOp(size: nat, alignment: nat, tag: nat, env: Env)
    | FreeOp(p: nat)
    | ReallocOp(p: nat, n: nat, env: Env)
    | WriteOp(at: nat, bytes: seq<Byte>)
    | ForeignOp(at: nat, b: Byte)
    | GuardOp(on: bool)
    | InitOp(on: bool)

  /** An outstanding block that no record describes. */
  ghost predicate PlainLive(s: State, p: nat)
    requires Shaped(s.shards)
  {
    p in s.live && Untracked(s, p)
  }

  predicate Tracking(s: State) { s.initialised && !s.guarded }

  /** `track_realloc`. */
  ghost function TrackRealloc(c: Config, s: State, p: nat, n: nat, env: Env): (State, nat)
    requires Good(c, s) && MayRealloc(c, s, p, n, env)
  {
    ReallocReady(c, s, p, n, env);
    if !Tracking(s) then RawRealloc(s, p, n, env.choice)
    else if p == 0 then Allocate(c, s, n, c.alignment, 0, env)
    else if n == 0 then (Deallocate(c, s, p), 0)
    else if p in Flat(s.shards) then ReallocateTracked(c, s, p, n, env)
    else RawRealloc(s, p, n, env.choice)
  }

  /** What the client may pass to `track_realloc`. */
  ghost predicate MayRealloc(c: Config, s: State, p: nat, n: nat, env: Env)
    requires Shaped(s.shards)
  {
    if !Tracking(s) then p == 0 || PlainLive(s, p)
    else if p == 0 then Sane(c, n, c.alignment, 0, env)
    else if n == 0 then Freeable(s, p)
    else if p in Flat(s.shards) then n < W64 && EnvOk(c, env)
    else PlainLive(s, p)
  }

  lemma ReallocReady(c: Config, s: State, p: nat, n: nat, env: Env)
    requires Good(c, s) && MayRealloc(c, s, p, n, env)
    ensures p in s.live ==> p + s.live[p] <= |s.mem|
    ensures Tracking(s) && p != 0 && n == 0 ==> CanCheck(c, s, p)
  {
    hide BlocksOk, ShardValid, ShardIndex, CountersOk, LiveOk, Flat, Deallocate;
    LiveInMemory(s.live, |s.mem|);
    if Tracking(s) && p != 0 && n == 0 { FreeKeeps(c, s, p); }
  }

  /** What a well-behaved client, and the world outside, may do in a state. */
  ghost predicate Allowed(c: Config, s: State, op: Op)
    requires Shaped(s.shards)
  {
    match op
    case AllocOp(size, alignment, tag, env) => Sane(c, size, alignment, tag, env)
    case FreeOp(p) => if s.guarded then p == 0 || PlainLive(s, p) else Freeable(s, p)
    case ReallocOp(p, n, env) => MayRealloc(c, s, p, n, env)
    case WriteOp(at, bytes) => ClientOwns(s, at, |bytes|)
    case ForeignOp(at, b) => NobodysByte(s, at)
    case GuardOp(on) => true
    case InitOp(on) => true
  }

  ghost function Step(c: Config, s: State, op: Op): State
    requires Good(c, s) && Allowed(c, s, op)
  {
    match op
    case AllocOp(size, alignment, tag, env) => Allocate(c, s, size, alignment, tag, env).0
    case FreeOp(p) =>
      if s.guarded then (if p == 0 then s else RawFree(s, p))
      else (FreeKeeps(c, s, p); Deallocate(c, s, p))
    case ReallocOp(p, n, env) => TrackRealloc(c, s, p, n, env).0
    case WriteOp(at, bytes) => OwnWriteKeeps(c, s, at, bytes); s.(mem := Put(s.mem, at, bytes))
    case ForeignOp(at, b) => s.(mem := Put(s.mem, at, [b]))
    case GuardOp(on) => s.(guarded := on)
    case InitOp(on) => s.(initialised := on)
  }

  ghost predicate Safe(c: Config, s: State) {
    Good(c, s) && AllIntact(c, s)
  }

  /** `s'` is where these operations lead from `s`, each allowed where it happens. */
  ghost predicate Leads(c: Config, s: State, ops: seq<Op>, s': State)
    requires Safe(c, s)
    decreases |ops|
  {
    if ops == [] then s' == s else
    Allowed(c, s, ops[0]) && (StepIsSafe(c, s, ops[0]); Leads(c, Step(c, s, ops[0]), ops[1..], s'))
  }

  function Start(mem: seq<Byte>): State {
    State(mem, map[], Empty(), ZERO, 1, 0, [], false, false)
  }

  lemma StartIsSafe(c: Config, mem: seq<Byte>)
    requires |mem| < W64
    ensures Safe(c, Start(mem))
  {
    EmptyIsValid();
  }

  lemma StepIsSafe(c: Config, s: State, op: Op)
    requires Safe(c, s) && Allowed(c, s, op)
    ensures Safe(c, Step(c, s, op))
  {
    match op
    case AllocOp(size, alignment, tag, env) => AllocIsSafe(c, s, size, alignment, tag, env);
    case FreeOp(p) => FreeIsSafe(c, s, p);
    case ReallocOp(p, n, env) => ReallocIsSafe(c, s, p, n, env);
    case WriteOp(at, bytes) => WriteIsSafe(c, s, at, bytes);
    case ForeignOp(at, b) => ForeignIsSafe(c, s, at, b);
    case GuardOp(on) => FlagsDoNotMatter(c, s, s.initialised, on);
    case InitOp(on) => FlagsDoNotMatter(c, s, on, s.guarded);
  }

  lemma FlagsDoNotMatter(c: Config, s: State, initialised: bool, guarded: bool)
    requires Safe(c, s)
    ensures Safe(c, s.(initialised := initialised, guarded := guarded))
  {
    hide BlocksOk, ShardValid, ShardIndex, CountersOk, LiveOk, Flat, Intact;
  }

  lemma AllocIsSafe(c: Config, s: State, size: nat, alignment: nat, tag: nat, env: Env)
    requires Safe(c, s) && Sane(c, size, alignment, tag, env)
    ensures Safe(c, Allocate(c, s, size, alignment, tag, env).0)
  {
    hide BlocksOk, ShardValid, ShardIndex, CountersOk, LiveOk, Flat, Intact, Allocate, OthersUnchanged, Untracked,
      OnAlloc, IsPowerOfTwo, Sane, Decide;
    AllocateKeeps(c, s, size, alignment, tag, env);
  }

  lemma WriteIsSafe(c: Config, s: State, at: nat, bytes: seq<Byte>)
    requires Safe(c, s) && ClientOwns(s, at, |bytes|)
    ensures at + |bytes| <= |s.mem| && Safe(c, s.(mem := Put(s.mem, at, bytes)))
  {
    hide BlocksOk, ShardValid, ShardIndex, CountersOk, LiveOk, Flat, Intact, Put, HeapInv;
    UnfoldInv(c, s);
    OwnWriteKeeps(c, s, at, bytes);
  }

  lemma ForeignIsSafe(c: Config, s: State, at: nat, b: Byte)
    requires Safe(c, s) && NobodysByte(s, at)
    ensures Safe(c, s.(mem := Put(s.mem, at, [b])))
  {
    hide BlocksOk, ShardValid, ShardIndex, CountersOk, LiveOk, Flat, Intact, Put, HeapInv;
    UnfoldInv(c, s);
    ForeignWriteKeeps(c, s, at, b);
  }

  lemma FreeIsSafe(c: Config, s: State, p: nat)
    requires Safe(c, s) && Allowed(c, s, FreeOp(p))
    ensures Safe(c, Step(c, s, FreeOp(p)))
  {
    hide BlocksOk, ShardValid, ShardIndex, CountersOk, LiveOk, Flat, Intact, HeapInv, Deallocate, OnFree, RestUnchanged,
      Quarantined, BackLink, Untracked;
    UnfoldInv(c, s);
    if s.guarded {
      if p != 0 { RawFreeKeeps(c, s, p); }
    } else {
      FreeKeeps(c, s, p);
      UnfoldInv(c, Deallocate(c, s, p));
    }
  }

  lemma RawAllocIsSafe(c: Config, s: State, n: nat, choice: nat)
    requires Safe(c, s)
    ensures var (s', q) := RawAlloc(s, n, choice);
      Safe(c, s') && (q != 0 ==> PlainLive(s', q) && s'.live[q] == n && s' == s.(live := s.live[q := n]))
  {
    hide BlocksOk, ShardValid, ShardIndex, CountersOk, LiveOk, Flat, Intact, HeapInv, Untracked, OthersUnchanged,
      CanGive;
    UnfoldInv(c, s);
    RawAllocKeeps(c, s, n, choice);
  }

  lemma RawFreeIsSafe(c: Config, s: State, p: nat)
    requires Safe(c, s) && PlainLive(s, p)
    ensures Safe(c, RawFree(s, p))
  {
    hide BlocksOk, ShardValid, ShardIndex, CountersOk, LiveOk, Flat, Intact, HeapInv, Untracked;
    UnfoldInv(c, s);
    RawFreeKeeps(c, s, p);
  }

  lemma RawReallocIsSafe(c: Config, s: State, p: nat, n: nat, choice: nat)
    requires Safe(c, s) && (p == 0 || PlainLive(s, p))
    ensures p != 0 ==> p + s.live[p] <= |s.mem|
    ensures Safe(c, RawRealloc(s, p, n, choice).0)
  {
    hide Safe, Put, CanGive, Untracked, LiveOk, Flat, BlocksOk, CountersOk, ShardValid;
    assert LiveOk(s.live, |s.mem|) && Shaped(s.shards) by { UnfoldSafe(c, s); }
    LiveInMemory(s.live, |s.mem|);
    RawAllocIsSafe(c, s, n, choice);
    if p != 0 {
      RawFreeIsSafe(c, s, p);
      var freed := RawFree(s, p);
      RawAllocIsSafe(c, freed, n, choice);
      var (given, q) := RawAlloc(freed, n, choice);
      if q != 0 {
        assert Shaped(given.shards) && ClientOwns(given, q, Kept(s.live[p], n));
        WriteIsSafe(c, given, q, s.mem[p..p + Kept(s.live[p], n)]);
      }
    }
  }

  lemma UnfoldSafe(c: Config, s: State)
    requires Safe(c, s)
    ensures HeapInv(c, s) && LiveOk(s.live, |s.mem|) && Shaped(s.shards)
  {
  }

  lemma ReallocIsSafe(c: Config, s: State, p: nat, n: nat, env: Env)
    requires Safe(c, s) && MayRealloc(c, s, p, n, env)
    ensures Safe(c, TrackRealloc(c, s, p, n, env).0)
  {
    hide BlocksOk, ShardValid, ShardIndex, CountersOk, LiveOk, Flat, Intact, HeapInv, Put, Untracked, OthersUnchanged,
      CanGive, Deallocate, Freeable, Sane, RawRealloc, Allocate, ReallocateTracked, AllIntact;
    UnfoldInv(c, s);
    ReallocReady(c, s, p, n, env);
    if !Tracking(s) {
      RawReallocIsSafe(c, s, p, n, env.choice);
    } else if p == 0 {
      AllocIsSafe(c, s, n, c.alignment, 0, env);
    } else if n == 0 {
      FreeIsSafe(c, s, p);
    } else if p in Flat(s.shards) {
      TrackedReallocIsSafe(c, s, p, n, env);
    } else {
      RawReallocIsSafe(c, s, p, n, env.choice);
    }
  }

  lemma TrackedReallocIsSafe(c: Config, s: State, p: nat, n: nat, env: Env)
    requires Safe(c, s) && p in Flat(s.shards) && n < W64 && EnvOk(c, env)
    ensures Safe(c, ReallocateTracked(c, s, p, n, env).0)
  {
    hide BlocksOk, ShardValid, ShardIndex, CountersOk, LiveOk, Flat, Intact, HeapInv, Put, Untracked, OthersUnchanged,
      CanGive, Deallocate, Quarantined, Grown, Decide, OnFree, OnAlloc, RestUnchanged;
    UnfoldInv(c, s);
    GrownKeeps(c, s, p, n, env);
    GrownIsSafe(c, s, p, n, env);
    CopiedKeeps(c, s, p, n, env);
    var k := Copied(c, s, p, n, env).0;
    UnfoldInv(c, k);
    FreeKeeps(c, k, p);
    UnfoldInv(c, Deallocate(c, k, p));
  }

  lemma GrownIsSafe(c: Config, s: State, p: nat, n: nat, env: Env)
    requires Safe(c, s) && p in Flat(s.shards) && n < W64 && EnvOk(c, env)
    ensures Safe(c, Grown(c, s, p, n, env).0)
  {
    hide BlocksOk, ShardValid, ShardIndex, CountersOk, LiveOk, Flat, Intact, HeapInv, Put, Untracked, OthersUnchanged,
      CanGive, Deallocate, Freeable, Grown, Decide, OnFree, OnAlloc;
    UnfoldInv(c, s);
    GrownKeeps(c, s, p, n, env);
    UnfoldInv(c, Grown(c, s, p, n, env).0);
  }

  // ---------- what gets reported

  function Corruptions(log: seq<Alert>): seq<Alert> {
    if log == [] then [] else
    var rest := Corruptions(log[..|log| - 1]);
    if log[|log| - 1].Corrupted? then rest + [log[|log| - 1]] else rest
  }

  lemma OneMoreAlert(log: seq<Alert>, a: Alert)
    ensures Corruptions(log + [a]) == if a.Corrupted? then Corruptions(log) + [a] else Corruptions(log)
  {
    assert (log + [a])[..|log|] == log;
  }

  /** The pointer that an operation hands to `deallocate`; 0 if none. */
  function Returned(s: State, op: Op): nat {
    match op
    case FreeOp(p) => if s.guarded then 0 else p
    case ReallocOp(p, n, _) => if Tracking(s) && n == 0 then p else 0
    case _ => 0
  }

  /** What an operation has to report: the free of a pointer that is dead and in quarantine. */
  ghost function Refused(s: State, op: Op): seq<Alert>
    requires Shaped(s.shards)
  {
    var p := Returned(s, op);
    if p != 0 && p !in Flat(s.shards) && Quarantined(s.shards, p) then [Corrupted(p, DoubleFree)] else []
  }

  /** All that the operations of a run have to report. */
  ghost function Expected(c: Config, s: State, ops: seq<Op>): seq<Alert>
    requires Safe(c, s)
    decreases |ops|
  {
    if ops == [] || !Allowed(c, s, ops[0]) then [] else
    StepIsSafe(c, s, ops[0]);
    Refused(s, ops[0]) + Expected(c, Step(c, s, ops[0]), ops[1..])
  }

  lemma OnlyLimits(s: State, s': State)
    requires OnlyLimitAlerts(s, s')
    ensures Corruptions(s'.log) == Corruptions(s.log)
  {
    if s'.log != s.log {
      var n, m :| s'.log == s.log + [LimitExceeded(n, m)];
      OneMoreAlert(s.log, LimitExceeded(n, m));
    }
  }

  lemma FreeReports(c: Config, s: State, p: nat)
    requires Safe(c, s) && Freeable(s, p)
    ensures CanCheck(c, s, p)
    ensures Corruptions(Deallocate(c, s, p).log) == Corruptions(s.log)
      + if p != 0 && p !in Flat(s.shards) && Quarantined(s.shards, p) then [Corrupted(p, DoubleFree)] else []
  {
    hide BlocksOk, ShardValid, ShardIndex, CountersOk, LiveOk, Flat, Intact, HeapInv, Deallocate, OnFree, RestUnchanged,
      Quarantined, BackLink, Untracked, Corruptions, IntactKept;
    UnfoldInv(c, s);
    FreeKeeps(c, s, p);
    OneMoreAlert(s.log, Corrupted(p, DoubleFree));
  }

  lemma ReallocReports(c: Config, s: State, p: nat, n: nat, env: Env)
    requires Safe(c, s) && p in Flat(s.shards) && n < W64 && EnvOk(c, env)
    ensures Corruptions(ReallocateTracked(c, s, p, n, env).0.log) == Corruptions(s.log)
  {
    hide BlocksOk, ShardValid, ShardIndex, CountersOk, LiveOk, Flat, Intact, HeapInv, Deallocate, OnFree, RestUnchanged,
      Quarantined, BackLink, Untracked, Corruptions, IntactKept, Grown, OnlyLimitAlerts, Added, AddedRaw, SameHeap,
      OthersUnchanged, Put, Decide;
    UnfoldInv(c, s);
    GrownKeeps(c, s, p, n, env);
    OnlyLimits(s, Grown(c, s, p, n, env).0);
    CopiedKeeps(c, s, p, n, env);
    CopiedIntact(c, s, p, n, env);
    UnfoldInv(c, Copied(c, s, p, n, env).0);
    FreeKeeps(c, Copied(c, s, p, n, env).0, p);
  }

  lemma StepReports(c: Config, s: State, op: Op)
    requires Safe(c, s) && Allowed(c, s, op)
    ensures Corruptions(Step(c, s, op).log) == Corruptions(s.log) + Refused(s, op)
  {
    hide BlocksOk, ShardValid, ShardIndex, CountersOk, LiveOk, Flat, Intact, HeapInv, Deallocate, Allocate,
      Quarantined, BackLink, Untracked, Corruptions, OnlyLimitAlerts, Added, AddedRaw, SameHeap, OthersUnchanged,
      Put, Sane, CanCheck, ReallocateTracked, CanGive, Freeable, AllIntact;
    UnfoldInv(c, s);
    match op
    case AllocOp(size, alignment, tag, env) =>
      AllocateKeeps(c, s, size, alignment, tag, env);
      OnlyLimits(s, Allocate(c, s, size, alignment, tag, env).0);
    case FreeOp(p) =>
      if !s.guarded { FreeReports(c, s, p); }
    case ReallocOp(p, n, env) =>
      ReallocReady(c, s, p, n, env);
      if Tracking(s) {
        if p == 0 {
          AllocateKeeps(c, s, n, c.alignment, 0, env);
          OnlyLimits(s, Allocate(c, s, n, c.alignment, 0, env).0);
        } else if n == 0 {
          FreeReports(c, s, p);
        } else if p in Flat(s.shards) {
          ReallocReports(c, s, p, n, env);
        }
      }
    case WriteOp(at, bytes) => OwnWriteKeeps(c, s, at, bytes);
    case ForeignOp(at, b) =>
    case GuardOp(on) =>
    case InitOp(on) =>
  }

  // ---------- main result

  /**
   Whatever a well-behaved client does, and whatever is written outside the outstanding blocks, every
   record describes an intact block, blocks do not overlap and the counters are exact. What is
   reported, in this order and nothing else but limits, are the frees of quarantined pointers.
   */
  lemma {:induction false} RunsAreSafe(c: Config, s: State, ops: seq<Op>, s': State)
    requires Safe(c, s) && Leads(c, s, ops, s')
    ensures Safe(c, s')
    ensures Corruptions(s'.log) == Corruptions(s.log) + Expected(c, s, ops)
    decreases |ops|
  {
    hide Good, AllIntact, Step, Allowed, Refused, Corruptions;
    if ops != [] {
      StepIsSafe(c, s, ops[0]);
      StepReports(c, s, ops[0]);
      RunsAreSafe(c, Step(c, s, ops[0]), ops[1..], s');
    }
  }

  /** No operation of the run frees a pointer that is dead and in quarantine at that moment. */
  ghost predicate NoQuarantinedFree(c: Config, s: State, ops: seq<Op>)
    requires Safe(c, s)
    decreases |ops|
  {
    ops == [] || !Allowed(c, s, ops[0]) ||
    (StepIsSafe(c, s, ops[0]);
     Refused(s, ops[0]) == [] && NoQuarantinedFree(c, Step(c, s, ops[0]), ops[1..]))
  }

  lemma {:induction false} NothingExpectedIff(c: Config, s: State, ops: seq<Op>)
    requires Safe(c, s)
    ensures Expected(c, s, ops) == [] <==> NoQuarantinedFree(c, s, ops)
    decreases |ops|
  {
    hide BlocksOk, ShardValid, CountersOk, LiveOk, Flat, AllIntact, Step, Allowed, Refused;
    if ops != [] && Allowed(c, s, ops[0]) {
      StepIsSafe(c, s, ops[0]);
      NothingExpectedIff(c, Step(c, s, ops[0]), ops[1..]);
    }
  }

  /** A run reports corruption exactly when it frees a quarantined pointer; otherwise only limits. */
  lemma RunIsSilentIff(c: Config, s: State, ops: seq<Op>, s': State)
    requires Safe(c, s) && Leads(c, s, ops, s') && Corruptions(s.log) == []
    ensures NoQuarantinedFree(c, s, ops) <==> forall i :: 0 <= i < |s'.log| ==> s'.log[i].LimitExceeded?
  {
    hide Safe, Leads, Expected, NoQuarantinedFree, Corruptions;
    RunsAreSafe(c, s, ops, s');
    NothingExpectedIff(c, s, ops);
    OnlyLimitsIff(s'.log);
  }

  lemma {:induction false} OnlyLimitsIff(log: seq<Alert>)
    ensures Corruptions(log) == [] <==> forall i :: 0 <= i < |log| ==> log[i].LimitExceeded?
  {
    if log != [] {
      var rest := log[..|log| - 1];
      OnlyLimitsIff(rest);
      assert log == rest + [log[|log| - 1]];
    }
  }

  /** Every allocation of this configuration is tracked. */
  predicate TracksAll(c: Config) {
    c.samplingRateBytes == 0 && c.sampleEveryN <= 1 && c.samplingPercentage >= 100
  }

  /** Runs get somewhere: from the start, a first tracked allocation that fits in memory succeeds. */
  lemma FirstAllocationSucceeds(c: Config, mem: seq<Byte>, size: nat, alignment: nat, tag: nat, env: Env)
    requires |mem| < W64 && TracksAll(c) && Sane(c, size, alignment, tag, env)
    requires env.choice % 16 == 0 && env.choice >= LOWEST
    requires env.choice + TrueTotal(size, alignment, FooterSize(c)) <= |mem|
    ensures Safe(c, Start(mem)) && Safe(c, Start(mem).(initialised := true))
    ensures var (s', p) := Allocate(c, Start(mem).(initialised := true), size, alignment, tag, env);
      && Leads(c, Start(mem), [InitOp(true), AllocOp(size, alignment, tag, env)], s')
      && p != 0 && Shaped(s'.shards) && p in Flat(s'.shards) && Flat(s'.shards)[p].requested == size
      && Intact(c, s'.mem, Flat(s'.shards)[p])
  {
    hide BlocksOk, ShardValid, ShardIndex, CountersOk, LiveOk, Flat, Intact, Allocate, HeapInv, AllIntact, Sane,
      OthersUnchanged, OnAlloc, Empty;
    var s := Start(mem);
    var begun := s.(initialised := true);
    StartIsSafe(c, mem);
    FlagsDoNotMatter(c, s, true, false);
    UnfoldInv(c, s);
    AllocationSucceedsIff(c, begun, size, alignment, tag, env);
    AllocateKeeps(c, begun, size, alignment, tag, env);
    AllocIsSafe(c, begun, size, alignment, tag, env);
    var op := AllocOp(size, alignment, tag, env);
    assert [InitOp(true), op][1..] == [op] && [op][1..] == [];
    UnfoldInv(c, Allocate(c, begun, size, alignment, tag, env).0);
    OneStep(c, begun, op);
    TwoSteps(c, s, InitOp(true), op, Step(c, begun, op));
  }

  lemma OneStep(c: Config, s: State, op: Op)
    requires Safe(c, s) && Allowed(c, s, op)
    ensures Leads(c, s, [op], Step(c, s, op))
  {
    hide Good, AllIntact, Step, Allowed;
    StepIsSafe(c, s, op);
    assert [op][1..] == [];
    LeadsNowhere(c, Step(c, s, op));
  }

  lemma LeadsNowhere(c: Config, s: State)
    requires Safe(c, s)
    ensures Leads(c, s, [], s)
  {
    hide Safe, Step, Allowed;
  }

  lemma TwoSteps(c: Config, s: State, a: Op, b: Op, s': State)
    requires Safe(c, s) && Allowed(c, s, a) && Safe(c, Step(c, s, a)) && Leads(c, Step(c, s, a), [b], s')
    ensures Leads(c, s, [a, b], s')
  {
    hide Safe, Step, Allowed;
    assert [a, b][1..] == [b];
  }

  // ---------- damage is found

  /** A write from the user address on that may run past the payload but stays inside the block. */
  ghost predicate Overrun(c: Config, s: State, p: nat, at: nat, n: nat)
    requires Shaped(s.shards)
  {
    && c.enableCanary && c.canaryFooterSize >= 8 && p in Flat(s.shards) && p <= at
    && at + n <= Flat(s.shards)[p].rawPtr + Flat(s.shards)[p].total && at + n <= |s.mem|
  }

  /** Some byte of the red zone of `r` has changed. */
  ghost predicate Damaged(c: Config, m: seq<Byte>, m': seq<Byte>, r: Record)
    requires |m'| == |m|
  {
    exists i :: r.userPtr + r.requested <= i < r.userPtr + r.requested + FooterSize(c) && i < |m| && m'[i] != m[i]
  }

  /**
   A client that writes past its payload, anywhere inside its block, is found out at the free exactly
   if it changed a red-zone byte: then FOOTER_CORRUPTED is reported and the block is not given back.
   Either way the record goes and no other block is affected.
   */
  lemma OverrunIsReportedIff(c: Config, s: State, d: State, p: nat, at: nat, bytes: seq<Byte>)
    requires Safe(c, s) && Overrun(c, s, p, at, |bytes|)
    requires d == s.(mem := Put(s.mem, at, bytes))
    ensures HeapInv(c, d) && CanCheck(c, d, p)
    ensures var s', r := Deallocate(c, d, p), Flat(s.shards)[p];
      && HeapInv(c, s') && Shaped(s'.shards) && p !in Flat(s'.shards) && AllIntact(c, s')
      && if Damaged(c, s.mem, d.mem, r)
         then s'.log == s.log + [Corrupted(p, FooterCorrupted)] && s'.live == s.live
         else s'.log == s.log && s'.live == s.live - {r.rawPtr}
  {
    hide BlocksOk, ShardValid, ShardIndex, CountersOk, LiveOk, Flat, Intact, HeapInv, Deallocate, OnFree, RestUnchanged,
      Quarantined, BackLink, Untracked, BlockOk, CanCheck, Verdict, Put, Damaged;
    UnfoldInv(c, s);
    OverrunKeeps(c, s.mem, s.live, Flat(s.shards), p, at, bytes);
    FoldInv(c, d);
    FreeTracked(c, d, p);
    UnfoldInv(c, Deallocate(c, d, p));
    DeallocateIsRelease(c, d, p);
  }

  lemma OverrunKeeps(c: Config, m: seq<Byte>, live: map<nat, nat>, recs: Table, p: nat, at: nat, bytes: seq<Byte>)
    requires LiveOk(live, |m|) && BlocksOk(c, m, live, recs) && p in recs && p <= at && at + |bytes| <= |m|
    requires c.enableCanary && c.canaryFooterSize >= 8 && Intact(c, m, recs[p])
    requires at + |bytes| <= recs[p].rawPtr + recs[p].total
    ensures var m' := Put(m, at, bytes);
      && BlocksOk(c, m', live, recs)
      && Checkable(m', recs[p].rawPtr, FooterSize(c))
      && Verdict(m', recs[p].rawPtr, FooterSize(c))
           == (if Damaged(c, m, m', recs[p]) then FooterCorrupted else NoCorruption)
      && (Intact(c, m', recs[p]) <==> !Damaged(c, m, m', recs[p]))
      && forall q :: q in recs && q != p ==> Intact(c, m', recs[q]) == Intact(c, m, recs[q])
  {
    hide Verdict, HeaderBytes, LeBytes, TrueTotal, Framed, Intact, HeaderOf, FooterIntact, BlockOk, Damaged, Put;
    var m' := Put(m, at, bytes);
    UserInRange(c, m, live, recs, p);
    PutSameOn(m, at, bytes, recs[p].rawPtr, p - recs[p].rawPtr);
    OwnBlockWritten(c, m, m', live, p, recs[p]);
    forall q | q in recs && q != p
      ensures BlockOk(c, m', live, q, recs[q]) && Intact(c, m', recs[q]) == Intact(c, m, recs[q])
    {
      UserInRange(c, m, live, recs, q);
      PutSameOn(m, at, bytes, recs[q].rawPtr, recs[q].total);
      BlockKept(c, m, m', live, live, q, recs[q]);
    }
  }

  /** What the check says about a block that was intact and changed only from its user address on. */
  lemma OwnBlockWritten(c: Config, m: seq<Byte>, m': seq<Byte>, live: map<nat, nat>, p: nat, r: Record)
    requires BlockOk(c, m, live, p, r) && Intact(c, m, r) && SameOn(m, m', r.rawPtr, p - r.rawPtr)
    requires c.enableCanary && c.canaryFooterSize >= 8
    ensures BlockOk(c, m', live, p, r) && Checkable(m', r.rawPtr, FooterSize(c))
    ensures Verdict(m', r.rawPtr, FooterSize(c)) == if Damaged(c, m, m', r) then FooterCorrupted else NoCorruption
    ensures Intact(c, m', r) <==> !Damaged(c, m, m', r)
  {
    hide Verdict, HeaderBytes, LeBytes, TrueTotal, Pattern;
    var h, start, footer := HeaderOf(c, r), p + r.requested, FooterSize(c);
    MetadataWithoutFooter(m, m', r.rawPtr, h, footer);
    if Damaged(c, m, m', r) {
      var i :| start <= i < start + footer && i < |m| && m'[i] != m[i];
      assert m[start + (i - start)] == Pattern(FOOTER_MAGIC, footer)[i - start];
      assert m'[start + (i - start)] != Pattern(FOOTER_MAGIC, footer)[i - start];
    }
    VerdictIsExact(m', r.rawPtr, h, footer);
  }

  /**
   A write in front of a payload that stays inside the block: over the magic, or between the header
   and the back-offset word.
   */
  ghost predicate Underrun(s: State, p: nat, at: nat, n: nat)
    requires Shaped(s.shards)
  {
    && p in Flat(s.shards) && at + n <= |s.mem|
    && var raw := Flat(s.shards)[p].rawPtr;
       || (raw <= at && at + n <= raw + 8)
       || (raw + HEADER_SIZE <= at && at + n + LINK_SIZE <= p)
  }

  /** Some byte of the magic of `r` has changed. */
  ghost predicate MagicChanged(m: seq<Byte>, m': seq<Byte>, r: Record)
    requires |m'| == |m|
  {
    exists i :: r.rawPtr <= i < r.rawPtr + 8 && i < |m| && m'[i] != m[i]
  }

  /**
   A client that writes in front of its payload, over the magic or between header and back-offset
   word, is found out at the free exactly if it changed a byte of the magic: HEADER_CORRUPTED is
   reported, or DOUBLE_FREE if what it wrote is the magic of a freed block, and the block is not
   given back. Either way the record goes and no other block is affected.
   */
  lemma UnderrunIsReportedIff(c: Config, s: State, d: State, p: nat, at: nat, bytes: seq<Byte>)
    requires Safe(c, s) && Underrun(s, p, at, |bytes|)
    requires d == s.(mem := Put(s.mem, at, bytes))
    ensures HeapInv(c, d) && CanCheck(c, d, p)
    ensures Flat(s.shards)[p].rawPtr + HEADER_SIZE <= |d.mem|
    ensures var s', r := Deallocate(c, d, p), Flat(s.shards)[p];
      && HeapInv(c, s') && Shaped(s'.shards) && p !in Flat(s'.shards) && AllIntact(c, s')
      && if MagicChanged(s.mem, d.mem, r)
         then s'.log == s.log + [Corrupted(p, if Magic(d.mem, r.rawPtr) == FREED_MAGIC then DoubleFree
                                              else HeaderCorrupted)]
              && s'.live == s.live
         else s'.log == s.log && s'.live == s.live - {r.rawPtr}
  {
    hide BlocksOk, ShardValid, ShardIndex, CountersOk, LiveOk, Flat, Intact, HeapInv, Deallocate, OnFree, RestUnchanged,
      Quarantined, BackLink, Untracked, BlockOk, CanCheck, Verdict, Put, MagicChanged, Magic;
    UnfoldInv(c, s);
    UnderrunKeeps(c, s.mem, s.live, Flat(s.shards), p, at, bytes);
    FoldInv(c, d);
    FreeTracked(c, d, p);
    UnfoldInv(c, Deallocate(c, d, p));
    DeallocateIsRelease(c, d, p);
  }

  lemma UnderrunKeeps(c: Config, m: seq<Byte>, live: map<nat, nat>, recs: Table, p: nat, at: nat, bytes: seq<Byte>)
    requires LiveOk(live, |m|) && BlocksOk(c, m, live, recs) && p in recs && Intact(c, m, recs[p])
    requires var raw := recs[p].rawPtr;
      at + |bytes| <= |m| && ((raw <= at && at + |bytes| <= raw + 8)
                              || (raw + HEADER_SIZE <= at && at + |bytes| + LINK_SIZE <= p))
    ensures var m', r := Put(m, at, bytes), recs[p];
      && BlocksOk(c, m', live, recs)
      && Checkable(m', r.rawPtr, FooterSize(c)) && r.rawPtr + HEADER_SIZE <= |m'|
      && Verdict(m', r.rawPtr, FooterSize(c)) == AfterUnderrun(m, m', r)
      && (Intact(c, m', r) <==> !MagicChanged(m, m', r))
      && forall q :: q in recs && q != p ==> Intact(c, m', recs[q]) == Intact(c, m, recs[q])
  {
    hide Verdict, HeaderBytes, LeBytes, TrueTotal, Framed, Intact, HeaderOf, FooterIntact, BlockOk, MagicChanged, Put,
      AfterUnderrun;
    var m' := Put(m, at, bytes);
    UserInRange(c, m, live, recs, p);
    FrontOfBlock(c, m, live, p, recs[p]);
    OwnFrontWritten(c, m, live, p, recs[p], at, bytes);
    forall q | q in recs && q != p
      ensures BlockOk(c, m', live, q, recs[q]) && Intact(c, m', recs[q]) == Intact(c, m, recs[q])
    {
      UserInRange(c, m, live, recs, q);
      PutSameOn(m, at, bytes, recs[q].rawPtr, recs[q].total);
      BlockKept(c, m, m', live, live, q, recs[q]);
    }
  }

  lemma FrontOfBlock(c: Config, m: seq<Byte>, live: map<nat, nat>, p: nat, r: Record)
    requires BlockOk(c, m, live, p, r)
    ensures r.rawPtr + HEADER_SIZE + LINK_SIZE <= p && p + r.requested + FooterSize(c) <= |m|
  {
    hide HeaderBytes, LeBytes, TrueTotal;
  }

  /** What the check says after a write over `m` in front of the payload of `r`. */
  ghost function AfterUnderrun(m: seq<Byte>, m': seq<Byte>, r: Record): Corruption
    requires |m'| == |m| && r.rawPtr + HEADER_SIZE <= |m|
  {
    if !MagicChanged(m, m', r) then NoCorruption
    else if Magic(m', r.rawPtr) == FREED_MAGIC then DoubleFree else HeaderCorrupted
  }

  lemma OwnFrontWritten(c: Config, m: seq<Byte>, live: map<nat, nat>, p: nat, r: Record, at: nat, bytes: seq<Byte>)
    requires BlockOk(c, m, live, p, r) && Intact(c, m, r) && at + |bytes| <= |m|
    requires r.rawPtr + HEADER_SIZE + LINK_SIZE <= p
    requires (r.rawPtr <= at && at + |bytes| <= r.rawPtr + 8)
          || (r.rawPtr + HEADER_SIZE <= at && at + |bytes| + LINK_SIZE <= p)
    ensures var m' := Put(m, at, bytes);
      && BlockOk(c, m', live, p, r) && Checkable(m', r.rawPtr, FooterSize(c)) && r.rawPtr + HEADER_SIZE <= |m'|
      && Verdict(m', r.rawPtr, FooterSize(c)) == AfterUnderrun(m, m', r)
      && (Intact(c, m', r) <==> !MagicChanged(m, m', r))
  {
    hide Verdict, HeaderBytes, LeBytes, TrueTotal, Pattern, Put, MagicChanged, Magic;
    var m', h, footer := Put(m, at, bytes), HeaderOf(c, r), FooterSize(c);
    assert forall i :: r.rawPtr + 8 <= i < r.rawPtr + HEADER_SIZE || p - LINK_SIZE <= i < |m| ==> m'[i] == m[i] by {
      PutElsewhere(m, at, bytes);
    }
    FramedButForMagic(m, m', r.rawPtr, h, footer);
    MagicDecides(m, m', r);
    VerdictIsExact(m', r.rawPtr, h, footer);
  }

  lemma PutElsewhere(m: seq<Byte>, at: nat, bytes: seq<Byte>)
    requires at + |bytes| <= |m|
    ensures |Put(m, at, bytes)| == |m|
    ensures forall i :: 0 <= i < at || at + |bytes| <= i < |m| ==> Put(m, at, bytes)[i] == m[i]
  {
  }

  /** Header fields, link and footer as they were: only the magic may differ. */
  lemma FramedButForMagic(m: seq<Byte>, m': seq<Byte>, raw: nat, h: Header, footer: nat)
    requires Framed(m, raw, h, footer) && Armed(m, raw, h, footer) && |m'| == |m|
    requires forall i :: raw + 8 <= i < raw + HEADER_SIZE || raw + h.userOffset - LINK_SIZE <= i < |m| ==>
      m'[i] == m[i]
    ensures Framed(m', raw, h, footer)
    ensures Armed(m', raw, h, footer) <==> Magic(m', raw) == LIVE_MAGIC
  {
    hide HeaderBytes, LeBytes, Magic, Pattern;
    var user, start := raw + h.userOffset, raw + h.userOffset + h.requested;
    assert m'[raw + 8..raw + HEADER_SIZE] == m[raw + 8..raw + HEADER_SIZE];
    assert m'[user - LINK_SIZE..user] == m[user - LINK_SIZE..user];
    assert m'[start..start + footer] == m[start..start + footer];
  }

  /** The magic is the live one as long as none of its bytes has changed. */
  lemma MagicDecides(m: seq<Byte>, m': seq<Byte>, r: Record)
    requires |m'| == |m| && r.rawPtr + HEADER_SIZE <= |m| && Magic(m, r.rawPtr) == LIVE_MAGIC
    ensures Magic(m', r.rawPtr) == LIVE_MAGIC <==> !MagicChanged(m, m', r)
  {
    hide LeValue, LeBytes;
    var a, b := m[r.rawPtr..r.rawPtr + 8], m'[r.rawPtr..r.rawPtr + 8];
    LeDetermines(a);
    LeDetermines(b);
    if a == b {
      forall i | r.rawPtr <= i < r.rawPtr + 8 ensures m'[i] == m[i] {
        assert a[i - r.rawPtr] == b[i - r.rawPtr];
      }
    } else {
      var k :| 0 <= k < 8 && a[k] != b[k];
      assert m'[r.rawPtr + k] != m[r.rawPtr + k];
    }
  }

  lemma FoldInv(c: Config, s: State)
    requires |s.mem| < W64 && TrackerSpec.Valid(s.shards) && LiveOk(s.live, |s.mem|)
    requires BlocksOk(c, s.mem, s.live, Flat(s.shards)) && CountersOk(s.counters, Flat(s.shards))
    ensures HeapInv(c, s)
  {
  }

  lemma DeallocateIsRelease(c: Config, s: State, p: nat)
    requires HeapInv(c, s) && p in Flat(s.shards)
    ensures CanCheck(c, s, p) && Poisonable(s.mem, Flat(s.shards)[p].rawPtr, FooterSize(c))
    ensures Deallocate(c, s, p) == Release(c, s.(shards := Erase(s.shards, p)), p, Flat(s.shards)[p])
  {
    hide BlocksOk, ShardValid, ShardIndex, CountersOk, LiveOk, Flat, BackLink, Verdict, BlockOk;
    TrackedIsCheckable(c, s, p);
    EraseRefines(s.shards, p);
    FlatLookup(s.shards, p);
  }

  /**
   Freeing a plain system block gives it back exactly when its address is not in quarantine and the
   bytes before it do not lead back to what looks like a live header. In quarantine, the free is taken
   for a double free; with such a header, the block is left alone and the header's address is freed.
   */
  lemma PlainBlockIsFreedIff(c: Config, s: State, p: nat)
    requires Good(c, s) && PlainLive(s, p) && CanCheck(c, s, p)
    ensures MAX_LINK <= p <= |s.mem|
    ensures var s' := Deallocate(c, s, p);
      && (p !in s'.live <==> !Quarantined(s.shards, p) && BackLink(s.mem, p).None?)
      && (Quarantined(s.shards, p) ==> s' == s.(log := s.log + [Corrupted(p, DoubleFree)]))
      && (!Quarantined(s.shards, p) && BackLink(s.mem, p).None? ==> s' == RawFree(s, p))
      && (!Quarantined(s.shards, p) && BackLink(s.mem, p).Some? ==>
            s'.live == s.live - {BackLink(s.mem, p).value} && s'.log == s.log)
  {
    hide BlocksOk, ShardValid, ShardIndex, CountersOk, Flat, Quarantined, Untracked, Intact, Freed, Erase, Word, Magic,
      UserOffsetAt, Poisoned, Verdict, Poisonable;
    UnfoldInv(c, s);
    LiveInMemory(s.live, |s.mem|);
    PlainIsNotTracked(c, s, p);
    EraseRefines(s.shards, p);
    FlatLookup(s.shards, p);
    LinkIsBefore(s.mem, p);
  }

  lemma LinkIsBefore(m: seq<Byte>, p: nat)
    requires MAX_LINK <= p <= |m|
    ensures BackLink(m, p).Some? ==> BackLink(m, p).value < p
  {
    hide Word, Magic, UserOffsetAt;
  }

  lemma PlainIsNotTracked(c: Config, s: State, p: nat)
    requires HeapInv(c, s) && p in s.live
    ensures p !in Flat(s.shards)
  {
    hide BlocksOk, ShardValid, ShardIndex, CountersOk, LiveOk, Flat;
    if p in Flat(s.shards) { UserIsNoBlock(c, s.mem, s.live, Flat(s.shards), p); }
  }
}
