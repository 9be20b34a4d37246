/**
 A run in which freeing a block that was just handed out is taken for a double free. Sampling tracks
 one allocation in two; an untracked block lands on the user address of a tracked one freed before.
 */
module FalseDoubleFree {
  import opened Words
  import opened Layout
  import opened Block
  import opened BlockProofs
  import opened TrackerSpec
  import opened Stats
  import opened Sampling
  import opened SystemHeap
  import opened ManagerSpec
  import opened HeapInvariant
  import opened HeapCalls
  import opened HeapSafety

  const EVERY_OTHER: Config := Config(0, 2, 100, true, 16, 16, 0, 0, false)

  /** malloc answers `choice`; nothing else matters. */
  function Answer(choice: nat): Env { Env(choice, 0, 0, [], 1, 1, 0) }

  const RAW: nat := LOWEST
  const USER: nat := RAW + 80

  /** The state of the run, as far as it matters. */
  ghost predicate At(s: State, live: map<nat, nat>, recs: set<nat>, nextId: nat, log: seq<Alert>) {
    && Safe(EVERY_OTHER, s) && Shaped(s.shards) && Tracking(s) && |s.mem| == 0x2_0000
    && s.live == live && Flat(s.shards).Keys == recs && s.nextId == nextId && s.log == log
  }

  lemma Begun(mem: seq<Byte>)
    requires |mem| == 0x2_0000
    ensures Safe(EVERY_OTHER, Start(mem)) && Allowed(EVERY_OTHER, Start(mem), InitOp(true))
    ensures At(Step(EVERY_OTHER, Start(mem), InitOp(true)), map[], {}, 1, [])
  {
    hide ShardIndex, ShardValid, Flat, Empty, Intact;
    EmptyIsValid();
    StartIsSafe(EVERY_OTHER, mem);
    FlagsDoNotMatter(EVERY_OTHER, Start(mem), true, false);
  }

  function Request(n: nat, choice: nat): Op { AllocOp(n, 16, 0, Answer(choice)) }

  /** The first allocation is not sampled, and the system has nothing to give. */
  lemma First(s: State)
    requires At(s, map[], {}, 1, [])
    ensures Allowed(EVERY_OTHER, s, Request(1, 0))
    ensures At(Step(EVERY_OTHER, s, Request(1, 0)), map[], {}, 2, [])
  {
    hide BlocksOk, ShardValid, ShardIndex, CountersOk, LiveOk, Flat, Intact, Allocate, HeapInv, AllIntact,
      OthersUnchanged, OnAlloc, Added, AddedRaw;
    var c := EVERY_OTHER;
    UnfoldInv(c, s);
    AllocIsSafe(c, s, 1, 16, 0, Answer(0));
    AllocateKeeps(c, s, 1, 16, 0, Answer(0));
    AllocationSucceedsIff(c, s, 1, 16, 0, Answer(0));
    AllocationDrawsOneId(c, s, 1, 16, 0, Answer(0));
  }

  /** Where a block is placed: at malloc's answer, or at the user address behind it. */
  lemma Placement(c: Config, s: State, size: nat, alignment: nat, tag: nat, env: Env)
    requires HeapInv(c, s) && Sane(c, size, alignment, tag, env)
    ensures var (s', p) := Allocate(c, s, size, alignment, tag, env);
      p != 0 ==> if GetsTracked(c, s, size, env)
                 then env.choice + MaxOffset(alignment) <= W64
                      && p == UserAddress(env.choice, EffectiveAlignment(alignment)) && env.choice in s'.live
                 else p == env.choice
  {
    hide UserAddress, Initialised, Insert, OnAlloc, Flat, BlocksOk, LiveOk, CountersOk, ShardValid, Decide;
    assert |s.mem| < W64 && Shaped(s.shards) by { UnfoldInv(c, s); }
    var total := CalculateTotalSize(size, EffectiveAlignment(alignment), FooterSize(c));
    if total != 0 && CanGive(s.live, |s.mem|, env.choice, total) {
      PartsFitInTotal(env.choice, size, EffectiveAlignment(alignment), FooterSize(c));
    }
  }

  lemma UserOfRaw()
    ensures UserAddress(RAW, 16) == USER
  {
    hide UserAddress;
    assert Pow2(4) == 16;
    UserOffsetBounds(RAW, 16);
  }

  /** The second is tracked. */
  lemma Second(s: State)
    requires At(s, map[], {}, 2, [])
    ensures Allowed(EVERY_OTHER, s, Request(100, RAW))
    ensures var s' := Step(EVERY_OTHER, s, Request(100, RAW));
      At(s', map[RAW := 200], {USER}, 3, []) && Flat(s'.shards)[USER].rawPtr == RAW
  {
    hide BlocksOk, ShardValid, ShardIndex, CountersOk, LiveOk, Flat, Intact, Allocate, HeapInv, AllIntact, SameOn,
      OnAlloc, IsPowerOfTwo, UserAddress;
    var c := EVERY_OTHER;
    UnfoldInv(c, s);
    AllocIsSafe(c, s, 100, 16, 0, Answer(RAW));
    AllocateKeeps(c, s, 100, 16, 0, Answer(RAW));
    AllocationSucceedsIff(c, s, 100, 16, 0, Answer(RAW));
    AllocationDrawsOneId(c, s, 100, 16, 0, Answer(RAW));
    LimitIsReportedIff(c, s, 100, 16, 0, Answer(RAW));
    Placement(c, s, 100, 16, 0, Answer(RAW));
    UserOfRaw();
    var s' := Allocate(c, s, 100, 16, 0, Answer(RAW)).0;
    UnfoldInv(c, s');
    TotalIs(c, s', USER);
  }

  lemma TotalIs(c: Config, s: State, p: nat)
    requires HeapInv(c, s) && p in Flat(s.shards)
    ensures var r := Flat(s.shards)[p]; r.total == TrueTotal(r.requested, r.alignment, FooterSize(c))
  {
    hide ShardValid, ShardIndex, CountersOk, LiveOk, Flat, Framed;
    assert BlockOk(c, s.mem, s.live, p, Flat(s.shards)[p]);
  }

  /** It is freed and its address goes into quarantine. */
  lemma Third(s: State)
    requires At(s, map[RAW := 200], {USER}, 3, []) && Flat(s.shards)[USER].rawPtr == RAW
    ensures Allowed(EVERY_OTHER, s, FreeOp(USER))
    ensures var s' := Step(EVERY_OTHER, s, FreeOp(USER)); At(s', map[], {}, 3, []) && Quarantined(s'.shards, USER)
  {
    hide BlocksOk, ShardValid, ShardIndex, CountersOk, LiveOk, Flat, Intact, HeapInv, OnFree, SameOn, IntactKept,
      Quarantined, BackLink, Untracked, Deallocate, Verdict, Poisoned;
    var c := EVERY_OTHER;
    UnfoldInv(c, s);
    FreeIsSafe(c, s, USER);
    FreeKeeps(c, s, USER);
    FreeTracked(c, s, USER);
    UnfoldInv(c, Deallocate(c, s, USER));
  }

  /** The next allocation is not sampled, and the system hands out the freed user address. */
  lemma Fourth(s: State)
    requires At(s, map[], {}, 3, []) && Quarantined(s.shards, USER)
    ensures Allowed(EVERY_OTHER, s, Request(100, USER))
    ensures var s' := Step(EVERY_OTHER, s, Request(100, USER));
      At(s', map[USER := 100], {}, 4, []) && Quarantined(s'.shards, USER)
    ensures Allocate(EVERY_OTHER, s, 100, 16, 0, Answer(USER)).1 == USER
  {
    hide BlocksOk, ShardValid, ShardIndex, CountersOk, LiveOk, Flat, Intact, Allocate, HeapInv, AllIntact,
      OthersUnchanged, OnAlloc, Added, Quarantined, UserAddress, Untracked;
    var c := EVERY_OTHER;
    UnfoldInv(c, s);
    AllocIsSafe(c, s, 100, 16, 0, Answer(USER));
    AllocateKeeps(c, s, 100, 16, 0, Answer(USER));
    AllocationSucceedsIff(c, s, 100, 16, 0, Answer(USER));
    AllocationDrawsOneId(c, s, 100, 16, 0, Answer(USER));
    Placement(c, s, 100, 16, 0, Answer(USER));
  }

  /** Freeing it is taken for a double free, and the block stays outstanding. */
  lemma Fifth(s: State)
    requires At(s, map[USER := 100], {}, 4, []) && Quarantined(s.shards, USER)
    ensures Allowed(EVERY_OTHER, s, FreeOp(USER))
    ensures Step(EVERY_OTHER, s, FreeOp(USER)) == s.(log := [Corrupted(USER, DoubleFree)])
  {
    hide BlocksOk, ShardValid, ShardIndex, CountersOk, LiveOk, Flat, Intact, HeapInv, OnFree, RestUnchanged,
      Quarantined, BackLink, Untracked, Deallocate, Verdict, Poisoned;
    UnfoldInv(EVERY_OTHER, s);
    FreeKeeps(EVERY_OTHER, s, USER);
  }

  lemma Prepend(c: Config, s: State, op: Op, ops: seq<Op>, s': State)
    requires Safe(c, s) && Allowed(c, s, op) && Safe(c, Step(c, s, op)) && Leads(c, Step(c, s, op), ops, s')
    ensures Leads(c, s, [op] + ops, s')
  {
    hide Safe, Step, Allowed;
    assert ([op] + ops)[1..] == ops;
  }

  function Ops(): seq<Op> {
    [InitOp(true)] + ([Request(1, 0)] + Tail())
  }

  function Tail(): seq<Op> {
    [Request(100, RAW)] + ([FreeOp(USER)] + ([Request(100, USER)] + [FreeOp(USER)]))
  }

  /**
   From the start: a tracked block is freed, its user address is handed out again untracked, and its one
   free is reported as a double free. The block is still outstanding afterwards.
   */
  lemma LiveBlockTakenForDoubleFree(mem: seq<Byte>) returns (before: State)
    requires |mem| == 0x2_0000
    ensures Safe(EVERY_OTHER, Start(mem))
    ensures Leads(EVERY_OTHER, Start(mem), Ops(), before.(log := [Corrupted(USER, DoubleFree)]))
    ensures Shaped(before.shards) && PlainLive(before, USER) && before.log == []
  {
    hide Good, AllIntact, Step, Allowed, Flat, Quarantined, Leads, ShardValid;
    var c := EVERY_OTHER;
    Begun(mem);
    var s1 := Step(c, Start(mem), InitOp(true));
    First(s1);
    var s2 := Step(c, s1, Request(1, 0));
    Second(s2);
    var s3 := Step(c, s2, Request(100, RAW));
    Third(s3);
    var s4 := Step(c, s3, FreeOp(USER));
    Fourth(s4);
    before := Step(c, s4, Request(100, USER));
    Fifth(before);
    var last := Step(c, before, FreeOp(USER));
    OneStep(c, before, FreeOp(USER));
    Prepend(c, s4, Request(100, USER), [FreeOp(USER)], last);
    Prepend(c, s3, FreeOp(USER), [Request(100, USER)] + [FreeOp(USER)], last);
    Prepend(c, s2, Request(100, RAW), [FreeOp(USER)] + ([Request(100, USER)] + [FreeOp(USER)]), last);
    Prepend(c, s1, Request(1, 0), Tail(), last);
    Prepend(c, Start(mem), InitOp(true), [Request(1, 0)] + Tail(), last);
  }
}
