/**
 What the entry points do in each of their cases, from the state before to the state after:
 `track_realloc` of nothing, to nothing, of a tracked block and of a plain one, and `track_free`.
 */
module HeapRealloc {
  import opened Words
  import opened Wrappers
  import opened Layout
  import opened Block
  import opened BlockBytes
  import opened Records
  import opened TrackerSpec
  import opened Stats
  import opened Sampling
  import opened SystemHeap
  import opened ManagerSpec
  import opened HeapInvariant
  import opened HeapCalls
  import opened HeapSafety

  // ---------- plain blocks

  /** What a plain reallocation does: nothing but outstanding blocks and the moved bytes change. */
  ghost predicate PlainMoved(s: State, s': State, p: nat, q: nat, n: nat, choice: nat) {
    && s' == s.(live := s'.live, mem := s'.mem)
    && if p == 0 then
         && (q != 0 <==> CanGive(s.live, |s.mem|, choice, n)) && s'.mem == s.mem
         && (q == 0 ==> s'.live == s.live) && (q != 0 ==> q == choice && s'.live == s.live[q := n])
       else if n == 0 then
         q == 0 && s'.live == s.live - {p} && s'.mem == s.mem
       else
         && p in s.live && (q != 0 <==> CanGive(s.live - {p}, |s.mem|, choice, n))
         && if q == 0 then s'.live == s.live && s'.mem == s.mem else
            var kept := if n < s.live[p] then n else s.live[p];
            && q == choice && s'.live == (s.live - {p})[q := n]
            && |s'.mem| == |s.mem| && p + kept <= |s.mem| && q + kept <= |s.mem|
            && s'.mem[q..q + kept] == s.mem[p..p + kept]
            && forall i :: 0 <= i < |s.mem| && !(q <= i < q + kept) ==> s'.mem[i] == s.mem[i]
  }

  lemma RawReallocMoves(s: State, p: nat, n: nat, choice: nat)
    requires p != 0 ==> p in s.live && p + s.live[p] <= |s.mem|
    ensures var (s', q) := RawRealloc(s, p, n, choice); PlainMoved(s, s', p, q, n, choice)
  {
    hide CanGive, Put;
    if CanGive(s.live, |s.mem|, choice, n) { GivenAddress(s.live, |s.mem|, choice, n); }
    if p != 0 && CanGive(s.live - {p}, |s.mem|, choice, n) {
      GivenAddress(s.live - {p}, |s.mem|, choice, n);
      BytesMove(s.mem, p, choice, if n < s.live[p] then n else s.live[p]);
    }
  }

  lemma BytesMove(m: seq<Byte>, from: nat, to: nat, n: nat)
    requires from + n <= |m| && to + n <= |m|
    ensures var m' := Put(m, to, m[from..from + n]);
      m'[to..to + n] == m[from..from + n] && forall i :: 0 <= i < |m| && !(to <= i < to + n) ==> m'[i] == m[i]
  {
  }

  lemma GivenAddress(live: map<nat, nat>, limit: nat, choice: nat, size: nat)
    requires CanGive(live, limit, choice, size)
    ensures choice != 0 && choice + size <= limit
  {
  }

  /**
   Inside a guard, before initialisation, or for a block that is not tracked, a reallocation is the
   system's: the first bytes of the old block are at the answer, the old block is given back, and
   records, counters and log are as they were.
   */
  lemma ReallocOfPlain(c: Config, s: State, p: nat, n: nat, env: Env)
    requires Good(c, s)
    requires if s.initialised && !s.guarded then p != 0 && n != 0 && PlainLive(s, p) else p == 0 || PlainLive(s, p)
    ensures MayRealloc(c, s, p, n, env)
    ensures var (s', q) := TrackRealloc(c, s, p, n, env); PlainMoved(s, s', p, q, n, env.choice)
  {
    hide Flat, HeapInv, ShardValid, BlocksOk, LiveOk, CountersOk, Untracked, RawRealloc, PlainMoved, Allocate,
      Deallocate, ReallocateTracked;
    UnfoldInv(c, s);
    LiveInMemory(s.live, |s.mem|);
    if p != 0 { PlainIsNotTracked(c, s, p); }
    ReallocReady(c, s, p, n, env);
    RawReallocMoves(s, p, n, env.choice);
  }

  // ---------- of nothing, and to nothing

  /** Reallocating null allocates with the configured alignment and no tag of its own. */
  lemma ReallocOfNull(c: Config, s: State, n: nat, env: Env)
    requires Good(c, s) && s.initialised && !s.guarded && Sane(c, n, c.alignment, 0, env)
    ensures MayRealloc(c, s, 0, n, env)
    ensures var (s', q) := TrackRealloc(c, s, 0, n, env);
      && Good(c, s')
      && (q != 0 <==> NeededFits(c, s, n, c.alignment, env))
      && (q == 0 ==> SameHeap(s, s'))
      && (q != 0 && GetsTracked(c, s, n, env) ==> Added(c, s, s', q, s.nextId, n, c.alignment, 0, env))
      && (q != 0 && !GetsTracked(c, s, n, env) ==> AddedRaw(s, s', q, n, env.choice))
      && s'.log == s.log + if q != 0 && GetsTracked(c, s, n, env) then LimitReport(c, s.counters.current + n) else []
  {
    hide Flat, HeapInv, ShardValid, BlocksOk, LiveOk, CountersOk, Untracked, Allocate, Added, AddedRaw, SameHeap,
      OthersUnchanged, Sane, Decide, LimitReport;
    UnfoldInv(c, s);
    AllocateKeeps(c, s, n, c.alignment, 0, env);
    AllocateReports(c, s, n, c.alignment, 0, env);
    AllocationSucceedsIff(c, s, n, c.alignment, 0, env);
  }

  /** What an allocation needs fits a word, and the system can give it. */
  ghost predicate NeededFits(c: Config, s: State, n: nat, alignment: nat, env: Env) {
    var eff := if alignment > 16 then alignment else 16;
    var needed := if GetsTracked(c, s, n, env)
                  then 68 + eff + n + (if c.enableCanary then c.canaryFooterSize else 0) else n;
    needed < W64 && CanGive(s.live, |s.mem|, env.choice, needed)
  }

  // ---------- freeing

  /**
   What giving `p` back does: a tracked block is dropped, checked and released; a pointer in quarantine
   is reported; a plain block is released; and null is ignored.
   */
  ghost predicate GivenBack(c: Config, s: State, s': State, p: nat)
    requires Shaped(s.shards) && Shaped(s'.shards)
  {
    && (p == 0 ==> s' == s)
    && (p in Flat(s.shards) ==> Freed(c, s, s', p))
    && (p != 0 && p !in Flat(s.shards) && Quarantined(s.shards, p) ==>
          s' == s.(log := s.log + [Corrupted(p, DoubleFree)]))
    && (p != 0 && p !in Flat(s.shards) && !Quarantined(s.shards, p) ==>
          p in s.live && s' == s.(live := s.live - {p}))
    && p !in Flat(s'.shards)
  }

  /** `track_free`: under a guard the block goes straight back to the system. */
  lemma TrackFreeGivesBack(c: Config, s: State, p: nat)
    requires Good(c, s) && if s.guarded then p == 0 || PlainLive(s, p) else Freeable(s, p)
    ensures Allowed(c, s, FreeOp(p))
    ensures var s' := Step(c, s, FreeOp(p));
      && Shaped(s'.shards)
      && (!s.guarded ==> GivenBack(c, s, s', p))
      && (s.guarded ==> s' == if p == 0 then s else s.(live := s.live - {p}))
  {
    hide Flat, HeapInv, ShardValid, BlocksOk, LiveOk, CountersOk, Untracked, Deallocate, Freed, Quarantined,
      Intact, BackLink;
    UnfoldInv(c, s);
    if !s.guarded { FreeGivesBack(c, s, p); }
  }

  lemma FreeGivesBack(c: Config, s: State, p: nat)
    requires Good(c, s) && Freeable(s, p)
    ensures CanCheck(c, s, p)
    ensures var s' := Deallocate(c, s, p); Good(c, s') && Shaped(s'.shards) && GivenBack(c, s, s', p)
  {
    hide Flat, HeapInv, ShardValid, BlocksOk, LiveOk, CountersOk, Untracked, Deallocate, Freed, Quarantined,
      Intact, BackLink, IntactKept, RestUnchanged;
    UnfoldInv(c, s);
    FreeKeeps(c, s, p);
    UnfoldInv(c, Deallocate(c, s, p));
    FlatLookup(s.shards, p);
    if p in Flat(s.shards) { FreedBlocks(c, s, Deallocate(c, s, p), p); }
  }

  /** Reallocating to nothing gives the block back, and the answer is null. */
  lemma ReallocToNothing(c: Config, s: State, p: nat, env: Env)
    requires Good(c, s) && s.initialised && !s.guarded && p != 0 && Freeable(s, p)
    ensures MayRealloc(c, s, p, 0, env)
    ensures var (s', q) := TrackRealloc(c, s, p, 0, env);
      q == 0 && Good(c, s') && Shaped(s'.shards) && GivenBack(c, s, s', p)
  {
    hide Flat, HeapInv, ShardValid, BlocksOk, LiveOk, CountersOk, Untracked, Deallocate, Freed, Quarantined,
      BackLink, GivenBack, Freeable;
    UnfoldInv(c, s);
    FreeGivesBack(c, s, p);
  }

  /**
   A pointer that is neither tracked nor in quarantine, but whose preceding bytes lead back to what
   looks like a live header: that header is marked as freed, byte by byte, and its address is freed.
   */
  lemma LinkedBlockIsGivenBack(c: Config, s: State, p: nat, i: nat)
    requires TrackerSpec.Valid(s.shards) && CanCheck(c, s, p) && p >= LOWEST
    requires p !in Flat(s.shards) && !Quarantined(s.shards, p) && p <= |s.mem| && BackLink(s.mem, p).Some?
    ensures var h, s' := BackLink(s.mem, p).value, Deallocate(c, s, p);
      && h + 68 <= p && s' == s.(mem := s'.mem, live := s.live - {h}) && |s'.mem| == |s.mem|
      && Word(s'.mem, h, 8) == FREED_MAGIC && BackLink(s'.mem, p) == None
      && (i < |s.mem| ==> s'.mem[i] == AfterLinkedFree(c, s.mem, h, p, i))
  {
    hide Flat, Quarantined, Poisoned, MagicByte, LeValue, LeBytes, Verdict;
    EraseRefines(s.shards, p);
    FlatLookup(s.shards, p);
    var h := BackLink(s.mem, p).value;
    BackLinkIff(s.mem, p, h);
    if i < |s.mem| { PoisonedBytes(s.mem, h, c.canaryFooterSize, i); }
    LinkIsGone(s.mem, h, c.canaryFooterSize, p);
  }

  /** Byte `i` after the header at `h`, reached from user address `p`, was marked as freed. */
  function AfterLinkedFree(c: Config, m: seq<Byte>, h: nat, p: nat, i: nat): Byte
    requires h + HEADER_SIZE <= |m| && i < |m|
  {
    var start := p + Word(m, h + 16, 8);
    if h <= i < h + 8 then MagicByte(FREED_MAGIC, i - h)
    else if h + 32 <= i < h + 40 || p - 4 <= i < p then 0
    else if m[h + 56] != 0 && c.canaryFooterSize >= 8 && start <= i < start + c.canaryFooterSize
      then MagicByte(FREED_MAGIC, i - start)
    else m[i]
  }

  lemma LinkIsGone(m: seq<Byte>, h: nat, footer: nat, p: nat)
    requires h != 0 && Poisonable(m, h, footer) && MAX_LINK <= p <= |m| && p == h + UserOffsetAt(m, h)
    requires UserOffsetAt(m, h) >= HEADER_SIZE + LINK_SIZE
    ensures var r := Poisoned(m, h, footer); Word(r, h, 8) == FREED_MAGIC && BackLink(r, p) == None
  {
    hide Poisoned, LeValue, LeBytes, MagicByte, Word;
    var r := Poisoned(m, h, footer);
    forall i | p - 4 <= i < p ensures r[i] == 0 { PoisonedBytes(m, h, footer, i); }
    assert r[p - 4..p] == Zeros(4);
    WordOfZeros(r, p - 4, 4);
    forall i | h <= i < h + 8 ensures r[i] == LeBytes(FREED_MAGIC, 8)[i - h] {
      PoisonedBytes(m, h, footer, i);
      WordByte(FREED_MAGIC, i - h);
    }
    WordFromBytes(r, h, FREED_MAGIC);
  }

  lemma WordOfZeros(m: seq<Byte>, at: nat, n: nat)
    requires at + n <= |m| && m[at..at + n] == Zeros(n)
    ensures Word(m, at, n) == 0
  {
    ZerosAreZero(n);
  }

  lemma WordFromBytes(m: seq<Byte>, at: nat, v: nat)
    requires at + 8 <= |m| && v < W64 && forall i :: at <= i < at + 8 ==> m[i] == LeBytes(v, 8)[i - at]
    ensures Word(m, at, 8) == v
  {
    hide LeBytes, LeValue;
    assert m[at..at + 8] == LeBytes(v, 8);
    WordSizes();
    LeRoundTrip(v, 8);
  }

  // ---------- of a tracked block

  /** What a reallocation of a tracked block does when it gets a new one. */
  ghost predicate Reallocated(c: Config, s: State, s': State, p: nat, q: nat, n: nat, env: Env)
    requires Shaped(s.shards) && Shaped(s'.shards) && p in Flat(s.shards)
    requires Flat(s.shards)[p].rawPtr + HEADER_SIZE <= |s.mem|
  {
    var r, tracked := Flat(s.shards)[p], GetsTracked(c, s, n, env);
    && Moved(c, s, s', p, q, n, env.choice)
    && s'.counters == OnFree(if tracked then OnAlloc(s.counters, n) else s.counters, r.requested)
    && s'.nextId == Wrap(s.nextId + 1) && s'.initialised && !s'.guarded
    && (tracked ==> Flat(s'.shards).Keys == Flat(s.shards).Keys - {p} + {q}
                    && Filled(c, Flat(s'.shards)[q], q, s.nextId, n, r.alignment, r.tag, env))
    && (!tracked ==> q == env.choice && Flat(s'.shards).Keys == Flat(s.shards).Keys - {p})
    && s'.log == s.log + OldReport(c, s, p) + (if tracked then LimitReport(c, s.counters.current + n) else [])
                 + if Intact(c, s.mem, r) then [] else [Corrupted(p, Damage(s.mem, r))]
  }

  /**
   Reallocating a tracked block answers a new block exactly when the system has one to give. Then the
   first bytes are in it, the old block is given back if intact, and everything else is as it was; if
   there is none, nothing changes. Damage to the old block is reported either way.
   */
  lemma ReallocOfTracked(c: Config, s: State, p: nat, n: nat, env: Env)
    requires Good(c, s) && s.initialised && !s.guarded && p in Flat(s.shards) && 0 < n < W64 && EnvOk(c, env)
    ensures MayRealloc(c, s, p, n, env) && Flat(s.shards)[p].rawPtr + HEADER_SIZE <= |s.mem|
    ensures var (s', q) := TrackRealloc(c, s, p, n, env);
      && Good(c, s') && Shaped(s'.shards)
      && (q != 0 <==> NeededFits(c, s, n, Flat(s.shards)[p].alignment, env))
      && (q == 0 ==> SameHeap(s, s'.(log := s.log)) && s'.log == s.log + OldReport(c, s, p))
      && (q != 0 ==> Reallocated(c, s, s', p, q, n, env))
  {
    hide Flat, HeapInv, ShardValid, BlocksOk, LiveOk, CountersOk, ReallocateTracked, Reallocated, NeededFits,
      SameHeap, OldReport, EnvOk;
    UnfoldInv(c, s);
    FlatLookup(s.shards, p);
    var (s', q) := ReallocateTracked(c, s, p, n, env);
    TrackedSucceedsIff(c, s, p, n, env);
    GrownReports(c, s, p, n, env);
    if q == 0 {
      ReallocateFails(c, s, p, n, env);
      FailureReports(c, s, p, n, env);
    } else {
      TrackedIsReallocated(c, s, p, n, env);
    }
    UnfoldInv(c, s');
  }

  lemma TrackedSucceedsIff(c: Config, s: State, p: nat, n: nat, env: Env)
    requires Good(c, s) && p in Flat(s.shards) && n < W64 && EnvOk(c, env)
    ensures ReallocateTracked(c, s, p, n, env).1 != 0 <==> NeededFits(c, s, n, Flat(s.shards)[p].alignment, env)
  {
    hide Flat, HeapInv, ShardValid, BlocksOk, LiveOk, CountersOk, Allocate, OldReport, EnvOk, Deallocate, Sane,
      CanGive, Grown, Decide, Put;
    UnfoldInv(c, s);
    GrownIsAllocate(c, s, p, n, env);
    CopiedKeeps(c, s, p, n, env);
    var r, checked := Flat(s.shards)[p], s.(log := s.log + OldReport(c, s, p));
    AllocationSucceedsIff(c, checked, n, r.alignment, r.tag, env);
  }

  lemma FailureReports(c: Config, s: State, p: nat, n: nat, env: Env)
    requires Good(c, s) && p in Flat(s.shards) && n < W64 && EnvOk(c, env)
    requires ReallocateTracked(c, s, p, n, env).1 == 0
    ensures ReallocateTracked(c, s, p, n, env).0 == Grown(c, s, p, n, env).0 && Grown(c, s, p, n, env).1 == 0
  {
    hide Flat, HeapInv, ShardValid, BlocksOk, LiveOk, CountersOk, EnvOk, Deallocate, Grown, Put;
    CopiedKeeps(c, s, p, n, env);
  }

  lemma TrackedIsReallocated(c: Config, s: State, p: nat, n: nat, env: Env)
    requires Good(c, s) && s.initialised && !s.guarded && p in Flat(s.shards) && n < W64 && EnvOk(c, env)
    requires ReallocateTracked(c, s, p, n, env).1 != 0
    ensures Flat(s.shards)[p].rawPtr + HEADER_SIZE <= |s.mem|
    ensures var (s', q) := ReallocateTracked(c, s, p, n, env);
      Good(c, s') && Shaped(s'.shards) && Reallocated(c, s, s', p, q, n, env)
  {
    hide Flat, HeapInv, ShardValid, BlocksOk, LiveOk, CountersOk, Grown, Deallocate, Added, AddedRaw, Freed, Moved,
      OldReport, LimitReport, Damage, Intact, Put,
      EnvOk, Filled, OnAlloc, OnFree, Decide, OthersUnchanged, Untracked, IntactKept, OnlyLimitAlerts;
    UnfoldInv(c, s);
    GrownReports(c, s, p, n, env);
    CopiedKeeps(c, s, p, n, env);
    CopiedIntact(c, s, p, n, env);
    ReallocateMoves(c, s, p, n, env);
    var (g, q) := Grown(c, s, p, n, env);
    var k := Copied(c, s, p, n, env).0;
    UnfoldInv(c, k);
    FreeTracked(c, k, p);
    var s' := Deallocate(c, k, p);
    UnfoldInv(c, s');
    DamageStays(c, s, p, n, env);
    GrownCounts(c, s, p, n, env);
    FreedCounts(c, k, s', p);
    FreedBlocks(c, k, s', p);
    HalvesJoin(c, s, g, k, s', p, q, n, env);
  }

  /** The two halves of a reallocation, with the copy between them, make the whole. */
  lemma HalvesJoin(c: Config, s: State, g: State, k: State, s': State, p: nat, q: nat, n: nat, env: Env)
    requires Shaped(s.shards) && Shaped(g.shards) && Shaped(k.shards) && Shaped(s'.shards) && p in Flat(s.shards)
    requires Flat(s.shards)[p].rawPtr + HEADER_SIZE <= |s.mem| == |k.mem|
    requires Moved(c, s, s', p, q, n, env.choice) && k == g.(mem := k.mem)
    requires g.log == s.log + OldReport(c, s, p)
                      + if GetsTracked(c, s, n, env) then LimitReport(c, s.counters.current + n) else []
    requires g.nextId == Wrap(s.nextId + 1) && s'.nextId == k.nextId
    requires g.initialised && !g.guarded && s'.initialised == k.initialised && s'.guarded == k.guarded
    requires g.counters == if GetsTracked(c, s, n, env) then OnAlloc(s.counters, n) else s.counters
    requires GetsTracked(c, s, n, env) ==>
      && q !in Flat(s.shards) && q in Flat(g.shards) && Flat(g.shards) == Flat(s.shards)[q := Flat(g.shards)[q]]
      && Filled(c, Flat(g.shards)[q], q, s.nextId, n, Flat(s.shards)[p].alignment, Flat(s.shards)[p].tag, env)
    requires !GetsTracked(c, s, n, env) ==> q == env.choice && Flat(g.shards) == Flat(s.shards)
    requires Flat(s'.shards) == Flat(g.shards) - {p}
    requires s'.counters == OnFree(g.counters, Flat(s.shards)[p].requested)
    requires var r := Flat(s.shards)[p];
      && Damage(k.mem, r) == Damage(s.mem, r) && Intact(c, k.mem, r) == Intact(c, s.mem, r)
      && s'.log == k.log + if Intact(c, k.mem, r) then [] else [Corrupted(p, Damage(k.mem, r))]
    ensures Reallocated(c, s, s', p, q, n, env)
  {
    hide Flat, Moved, Filled, OnAlloc, OnFree, Damage, OldReport, LimitReport, Intact, Wrap, GetsTracked, Shaped;
  }

  lemma FreedCounts(c: Config, k: State, s': State, p: nat)
    requires Shaped(k.shards) && Shaped(s'.shards) && p in Flat(k.shards) && Freed(c, k, s', p)
    ensures Flat(k.shards)[p].rawPtr + HEADER_SIZE <= |k.mem| || Intact(c, k.mem, Flat(k.shards)[p])
    ensures var r := Flat(k.shards)[p];
      && s'.counters == OnFree(k.counters, r.requested)
      && s'.log == k.log + if Intact(c, k.mem, r) then [] else [Corrupted(p, Damage(k.mem, r))]
  {
    hide Flat, Intact, OnFree, Quarantined, IntactKept, MarkedFreed, Damage, RestUnchanged;
  }

  /** What the first half does to counters, ids and records. */
  lemma GrownCounts(c: Config, s: State, p: nat, n: nat, env: Env)
    requires Good(c, s) && s.initialised && !s.guarded && p in Flat(s.shards) && n < W64 && EnvOk(c, env)
    requires Grown(c, s, p, n, env).1 != 0
    ensures var (g, q) := Grown(c, s, p, n, env); var r, tracked := Flat(s.shards)[p], GetsTracked(c, s, n, env);
      && Shaped(g.shards) && g.nextId == Wrap(s.nextId + 1) && g.initialised && !g.guarded
      && g.counters == (if tracked then OnAlloc(s.counters, n) else s.counters)
      && (tracked ==> q !in Flat(s.shards) && q in Flat(g.shards)
                      && Flat(g.shards) == Flat(s.shards)[q := Flat(g.shards)[q]]
                      && Filled(c, Flat(g.shards)[q], q, s.nextId, n, r.alignment, r.tag, env))
      && (!tracked ==> q == env.choice && Flat(g.shards) == Flat(s.shards))
  {
    hide Flat, HeapInv, ShardValid, BlocksOk, LiveOk, CountersOk, Allocate, OldReport, EnvOk, Sane, Grown, Decide,
      Wrap, OnAlloc, Filled, LaidOut, Intact,
      OthersUnchanged, Untracked;
    UnfoldInv(c, s);
    GrownIsAllocate(c, s, p, n, env);
    GrownKeeps(c, s, p, n, env);
    var r, checked := Flat(s.shards)[p], s.(log := s.log + OldReport(c, s, p));
    AllocationDrawsOneId(c, checked, n, r.alignment, r.tag, env);
    UnfoldInv(c, Grown(c, s, p, n, env).0);
  }

  /** Neither allocating nor copying touches the old block's magic. */
  lemma DamageStays(c: Config, s: State, p: nat, n: nat, env: Env)
    requires Good(c, s) && p in Flat(s.shards) && n < W64 && EnvOk(c, env)
    requires Grown(c, s, p, n, env).1 != 0
    ensures var k, r := Copied(c, s, p, n, env).0, Flat(s.shards)[p];
      && r.rawPtr + HEADER_SIZE <= |s.mem| && |k.mem| == |s.mem| && Damage(k.mem, r) == Damage(s.mem, r)
  {
    hide Flat, HeapInv, ShardValid, BlocksOk, LiveOk, CountersOk, Grown, EnvOk, Put, Decide, Word, SameOn, Added,
      AddedRaw, Untracked, Intact, OnlyLimitAlerts,
      OldReport, LimitReport;
    UnfoldInv(c, s);
    GrownKeeps(c, s, p, n, env);
    GrownIsOwned(c, s, p, n, env);
    GrownReports(c, s, p, n, env);
    var (g, q) := Grown(c, s, p, n, env);
    var b := NewHome(c, s, p, n, env);
    UnfoldInv(c, g);
    var r := Flat(s.shards)[p];
    BlockIsLong(c, s.mem, s.live, Flat(s.shards), p);
    OtherBlocksSame(g.live, g.mem, b, q, g.mem[p..p + Kept(r.requested, n)]);
    SameOnTwice(s.mem, g.mem, Copied(c, s, p, n, env).0.mem, r.rawPtr, s.live[r.rawPtr]);
    SameOnWord(s.mem, Copied(c, s, p, n, env).0.mem, r.rawPtr, s.live[r.rawPtr]);
  }

  lemma BlockIsLong(c: Config, m: seq<Byte>, live: map<nat, nat>, recs: Table, p: nat)
    requires BlocksOk(c, m, live, recs) && p in recs
    ensures recs[p].rawPtr in live && live[recs[p].rawPtr] >= HEADER_SIZE
  {
    hide HeaderBytes, LeBytes;
    assert BlockOk(c, m, live, p, recs[p]);
  }

  lemma SameOnWord(m: seq<Byte>, m': seq<Byte>, from: nat, n: nat)
    requires SameOn(m, m', from, n) && n >= 8
    ensures Word(m', from, 8) == Word(m, from, 8)
  {
    assert m'[from..from + 8] == m[from..from + 8];
  }
}
