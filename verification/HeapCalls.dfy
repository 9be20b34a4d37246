/**
 What each call keeps and changes: allocating, freeing, reallocating and a client's writes all keep
 the heap invariant, and what they do to blocks, records, counters and log is stated for each.
 */
module HeapCalls {
  import opened Words
  import opened Wrappers
  import opened Layout
  import opened Block
  import opened BlockProofs
  import opened BlockBytes
  import opened Records
  import opened TrackerSpec
  import opened Stats
  import opened Sampling
  import opened SystemHeap
  import opened ManagerSpec
  import opened HeapInvariant

  // ---------- allocate

  /** What a plain system allocation adds. */
  ghost predicate AddedRaw(s: State, s': State, p: nat, size: nat, choice: nat) {
    && p == choice && p !in s.live && s'.live == s.live[p := size] && s'.mem == s.mem
    && s'.shards == s.shards && s'.counters == s.counters && s'.log == s.log
  }

  /** Whether this call goes through the tracker. */
  predicate GetsTracked(c: Config, s: State, size: nat, env: Env) {
    s.initialised && !s.guarded && Decide(c, s.nextId, size, s.countdown, env.firstDraw, env.nextDraw).0
  }

  ghost predicate SameHeap(s: State, s': State) {
    s' == s.(nextId := s'.nextId, countdown := s'.countdown)
  }

  ghost predicate OnlyLimitAlerts(s: State, s': State) {
    s'.log == s.log || exists n, m :: s'.log == s.log + [LimitExceeded(n, m)]
  }

  ghost predicate Good(c: Config, s: State) { HeapInv(c, s) && s.nextId < W64 }

  lemma AllocateKeeps(c: Config, s: State, size: nat, alignment: nat, tag: nat, env: Env)
    requires Good(c, s) && Sane(c, size, alignment, tag, env)
    ensures var (s', p) := Allocate(c, s, size, alignment, tag, env);
      && Good(c, s') && OthersUnchanged(s, s') && OnlyLimitAlerts(s, s')
      && (p == 0 ==> SameHeap(s, s'))
      && (p != 0 && GetsTracked(c, s, size, env) ==>
            Added(c, s, s', p, s.nextId, size, alignment, tag, env))
      && (p != 0 && !GetsTracked(c, s, size, env) ==> AddedRaw(s, s', p, size, env.choice) && Untracked(s', p))
      && s'.initialised == s.initialised && s'.guarded == s.guarded
  {
    hide HeapInv, AllocateTracked, RawAlloc, Decide, Added, AddedRaw, OthersUnchanged, Wrap, TrackerSpec.Valid,
      Untracked, Sane, OnlyLimitAlerts, Flat, SameHeap, BlocksOk, CountersOk, LiveOk;
    UnfoldInv(c, s);
    NextIdBelow(s.nextId);
    if GetsTracked(c, s, size, env) {
      AllocateKeepsTracked(c, s, Counted(c, s, size, env), size, alignment, tag, env);
    } else if s.guarded || !s.initialised {
      AllocateKeepsPlain(c, s, s, size, env.choice);
    } else {
      AllocateKeepsPlain(c, s, Counted(c, s, size, env), size, env.choice);
    }
  }

  /** The state after drawing an id and moving the countdown. */
  function Counted(c: Config, s: State, size: nat, env: Env): State {
    s.(nextId := Wrap(s.nextId + 1),
       countdown := Decide(c, s.nextId, size, s.countdown, env.firstDraw, env.nextDraw).1)
  }

  /** A plain request from `t`, which is `s` up to the next id and the countdown. */
  lemma AllocateKeepsPlain(c: Config, s: State, t: State, size: nat, choice: nat)
    requires HeapInv(c, s) && t == s.(nextId := t.nextId, countdown := t.countdown)
    ensures var (s', p) := RawAlloc(t, size, choice);
      && HeapInv(c, s') && OthersUnchanged(s, s') && OnlyLimitAlerts(s, s')
      && (if p == 0 then SameHeap(s, s') else AddedRaw(s, s', p, size, choice) && Untracked(s', p))
      && s'.nextId == t.nextId && s'.initialised == s.initialised && s'.guarded == s.guarded
  {
    hide HeapInv, RawAlloc, OthersUnchanged, Untracked;
    OnlyHeapMatters(c, s, t);
    RawAllocKeeps(c, t, size, choice);
    assert OthersUnchanged(t, RawAlloc(t, size, choice).0);
  }

  /** A tracked allocation from `t`, which is `s` up to the next id and the countdown. */
  lemma AllocateKeepsTracked(c: Config, s: State, t: State, size: nat, alignment: nat, tag: nat, env: Env)
    requires HeapInv(c, s) && t == s.(nextId := t.nextId, countdown := t.countdown)
    requires Sane(c, size, alignment, tag, env) && s.nextId < W64
    ensures |s.mem| < W64 && Shaped(s.shards)
    ensures var (s', p) := AllocateTracked(c, t, s.nextId, size, alignment, tag, env);
      && HeapInv(c, s') && OthersUnchanged(s, s') && OnlyLimitAlerts(s, s')
      && (if p == 0 then SameHeap(s, s')
          else Shaped(s'.shards) && Added(c, s, s', p, s.nextId, size, alignment, tag, env))
      && s'.nextId == t.nextId && s'.initialised == s.initialised && s'.guarded == s.guarded
  {
    hide HeapInv, AllocateTracked, OthersUnchanged, Sane, Added, TrackerSpec.Valid, Untracked, Flat, BlocksOk,
      CountersOk, LiveOk;
    UnfoldInv(c, s);
    OnlyHeapMatters(c, s, t);
    AllocateTrackedKeeps(c, t, s.nextId, size, alignment, tag, env);
    AllocateTrackedRest(c, t, s.nextId, size, alignment, tag, env);
    var result := AllocateTracked(c, t, s.nextId, size, alignment, tag, env);
    UnfoldInv(c, result.0);
    OnlyHeapMattersToAdded(c, s, t, result, s.nextId, size, alignment, tag, env);
  }

  lemma NextIdBelow(n: nat)
    ensures Wrap(n + 1) < W64
  {
  }

  lemma OnlyHeapMatters(c: Config, s: State, t: State)
    requires HeapInv(c, s) && t == s.(nextId := t.nextId, countdown := t.countdown)
    ensures HeapInv(c, t) && OthersUnchanged(s, t)
    ensures forall s' :: OthersUnchanged(t, s') == OthersUnchanged(s, s')
    ensures forall p :: Untracked(t, p) == Untracked(s, p)
  {
    hide BlocksOk, CountersOk, TrackerSpec.Valid, Flat;
    LiveInMemory(s.live, |s.mem|);
  }

  lemma OnlyHeapMattersToAdded(c: Config, s: State, t: State, result: (State, nat), id: nat, size: nat, alignment: nat,
                               tag: nat, env: Env)
    requires t == s.(nextId := t.nextId, countdown := t.countdown) && Shaped(s.shards) && Shaped(result.0.shards)
    ensures OthersUnchanged(t, result.0) == OthersUnchanged(s, result.0)
    ensures result.1 != 0 && Added(c, t, result.0, result.1, id, size, alignment, tag, env) ==>
      OthersUnchanged(t, result.0)
    ensures Added(c, t, result.0, result.1, id, size, alignment, tag, env)
         == Added(c, s, result.0, result.1, id, size, alignment, tag, env)
  {
    hide Flat, Intact, IsPowerOfTwo, Aligned, OnAlloc;
  }

  /** A tracked allocation touches no more than memory, blocks, records, counters and the log. */
  lemma AllocateTrackedRest(c: Config, s: State, id: nat, size: nat, alignment: nat, tag: nat, env: Env)
    requires Sane(c, size, alignment, tag, env) && |s.mem| < W64 && Shaped(s.shards)
    ensures var s' := AllocateTracked(c, s, id, size, alignment, tag, env).0;
      && OnlyLimitAlerts(s, s')
      && s'.nextId == s.nextId && s'.countdown == s.countdown
      && s'.initialised == s.initialised && s'.guarded == s.guarded
  {
    hide UserAddress, CalculateTotalSize, Initialised, Insert, OnAlloc, MallocResult;
  }

  /**
   An allocation succeeds exactly when its true size fits a word and the system can give that much:
   the whole block on the tracked path, the plain request otherwise.
   */
  lemma AllocationSucceedsIff(c: Config, s: State, size: nat, alignment: nat, tag: nat, env: Env)
    requires |s.mem| < W64 && Shaped(s.shards) && Sane(c, size, alignment, tag, env)
    ensures var p := Allocate(c, s, size, alignment, tag, env).1;
      var needed := if GetsTracked(c, s, size, env) then TrueTotal(size, alignment, FooterSize(c)) else size;
      p != 0 <==> needed < W64 && CanGive(s.live, |s.mem|, env.choice, needed)
  {
    hide Decide, UserAddress, Initialised, Insert, Watchdog, OnAlloc;
    TotalSizeIsExactIff(size, EffectiveAlignment(alignment), FooterSize(c));
    var total := CalculateTotalSize(size, EffectiveAlignment(alignment), FooterSize(c));
    if GetsTracked(c, s, size, env) && total != 0 && CanGive(s.live, |s.mem|, env.choice, total) {
      PartsFitInTotal(env.choice, size, EffectiveAlignment(alignment), FooterSize(c));
    }
  }

  /** Outside the guard each call draws one id and moves the sampling countdown; inside it nothing moves. */
  lemma AllocationDrawsOneId(c: Config, s: State, size: nat, alignment: nat, tag: nat, env: Env)
    requires |s.mem| < W64 && Shaped(s.shards) && Sane(c, size, alignment, tag, env)
    ensures var s' := Allocate(c, s, size, alignment, tag, env).0;
      (s'.nextId, s'.countdown) ==
        if s.initialised && !s.guarded
        then (Wrap(s.nextId + 1), Decide(c, s.nextId, size, s.countdown, env.firstDraw, env.nextDraw).1)
        else (s.nextId, s.countdown)
  {
    hide Decide, AllocateTracked, MallocResult, Wrap;
    if s.initialised && !s.guarded {
      var countdown := Decide(c, s.nextId, size, s.countdown, env.firstDraw, env.nextDraw).1;
      AllocateTrackedRest(c, s.(nextId := Wrap(s.nextId + 1), countdown := countdown), s.nextId, size, alignment, tag,
                          env);
    }
  }

  /** The limit is reported exactly when a tracked allocation leaves more live bytes than it allows. */
  lemma LimitIsReportedIff(c: Config, s: State, size: nat, alignment: nat, tag: nat, env: Env)
    requires Good(c, s) && Sane(c, size, alignment, tag, env) && GetsTracked(c, s, size, env)
    requires Allocate(c, s, size, alignment, tag, env).1 != 0
    ensures var s', n := Allocate(c, s, size, alignment, tag, env).0, s.counters.current + size;
      s'.log == s.log + if c.maxHeapBytes > 0 && c.hasWatchdog && n > c.maxHeapBytes
                        then [LimitExceeded(n, c.maxHeapBytes)] else []
  {
    hide HeapInv, Decide, Added, OthersUnchanged, Sane, AllocateTracked, Flat, Untracked, OnlyLimitAlerts, SameHeap,
      AddedRaw, BlocksOk, CountersOk, LiveOk, TrackerSpec.Valid, Watchdog;
    UnfoldInv(c, s);
    AllocateKeeps(c, s, size, alignment, tag, env);
    var (s', p) := Allocate(c, s, size, alignment, tag, env);
    AddedCounts(c, s, s', p, s.nextId, size, alignment, tag, env);
    WatchdogHasLastWord(c, Counted(c, s, size, env), s.nextId, size, alignment, tag, env);
  }

  /** What a tracked allocation logs depends on the counter it leaves. */
  lemma WatchdogHasLastWord(c: Config, s: State, id: nat, size: nat, alignment: nat, tag: nat, env: Env)
    requires Sane(c, size, alignment, tag, env) && |s.mem| < W64 && Shaped(s.shards)
    requires AllocateTracked(c, s, id, size, alignment, tag, env).1 != 0
    ensures var s' := AllocateTracked(c, s, id, size, alignment, tag, env).0;
      s'.log == s.log + if c.maxHeapBytes > 0 && c.hasWatchdog && s'.counters.current > c.maxHeapBytes
                        then [LimitExceeded(s'.counters.current, c.maxHeapBytes)] else []
  {
    hide UserAddress, CalculateTotalSize, Initialised, Insert, OnAlloc, MallocResult;
  }

  // ---------- deallocate

  /** What is left of the outstanding blocks keeps its bytes. */
  ghost predicate RestUnchanged(s: State, s': State) {
    && |s'.mem| == |s.mem|
    && forall r :: r in s'.live ==> r in s.live && s'.live[r] == s.live[r] && SameOn(s.mem, s'.mem, r, s.live[r])
  }

  /** The remaining records are as intact as before. */
  ghost predicate IntactKept(c: Config, s: State, s': State)
    requires Shaped(s.shards) && Shaped(s'.shards)
  {
    forall q :: q in Flat(s'.shards) && q in Flat(s.shards) ==>
      Intact(c, s'.mem, Flat(s.shards)[q]) == Intact(c, s.mem, Flat(s.shards)[q])
  }

  /** Pointers a client may free: null, live, still in quarantine, or a plain system block. */
  ghost predicate Freeable(s: State, p: nat)
    requires Shaped(s.shards)
  {
    || p == 0
    || p in Flat(s.shards)
    || Quarantined(s.shards, p)
    || PlainBlock(s, p)
  }

  /** A block of the system's that no record describes and that does not imitate a tracked one. */
  ghost predicate PlainBlock(s: State, p: nat)
    requires Shaped(s.shards)
  {
    p in s.live && Untracked(s, p) && MAX_LINK <= p <= |s.mem| && BackLink(s.mem, p) == None
  }

  /**
   What freeing a tracked pointer does: the record goes, the counters follow, and the block is
   released if it is intact, or reported and kept if it is not.
   */
  ghost predicate Freed(c: Config, s: State, s': State, p: nat)
    requires Shaped(s.shards) && Shaped(s'.shards) && p in Flat(s.shards)
  {
    var r := Flat(s.shards)[p];
    && Flat(s'.shards) == Flat(s.shards) - {p}
    && Quarantined(s'.shards, p)
    && s'.counters == OnFree(s.counters, r.requested)
    && s'.counters.current == s.counters.current - r.requested
    && s'.counters.active == s.counters.active - 1
    && RestUnchanged(s, s') && IntactKept(c, s, s')
    && r.rawPtr in s.live
    && if Intact(c, s.mem, r)
       then s'.live == s.live - {r.rawPtr} && s'.log == s.log && MarkedFreed(c, s.mem, s'.mem, r)
       else s'.live == s.live && s'.mem == s.mem
            && r.rawPtr + HEADER_SIZE <= |s.mem| && s'.log == s.log + [Corrupted(p, Damage(s.mem, r))]
  }

  /** What is wrong with the damaged block of `r`: its red zone, if the magic is the live one. */
  function Damage(m: seq<Byte>, r: Record): Corruption
    requires r.rawPtr + HEADER_SIZE <= |m|
  {
    if Word(m, r.rawPtr, 8) == LIVE_MAGIC then FooterCorrupted
    else if Word(m, r.rawPtr, 8) == FREED_MAGIC then DoubleFree
    else HeaderCorrupted
  }

  lemma TrackedIsCheckable(c: Config, s: State, p: nat)
    requires HeapInv(c, s) && p in Flat(s.shards)
    ensures CanCheck(c, s, p)
    ensures var r := Flat(s.shards)[p];
      && BlockOk(c, s.mem, s.live, p, r) && r.rawPtr in s.live
      && (Verdict(s.mem, r.rawPtr, FooterSize(c)) == NoCorruption <==> Intact(c, s.mem, r))
      && r.rawPtr + HEADER_SIZE <= |s.mem|
      && (!Intact(c, s.mem, r) ==> Verdict(s.mem, r.rawPtr, FooterSize(c)) == Damage(s.mem, r))
  {
    hide Flat, Verdict, Framed, HeaderOf, Intact, BackLink, CountersOk, LiveOk, ShardIndex, ShardValid, TrueTotal;
    EraseRefines(s.shards, p);
    UserInRange(c, s.mem, s.live, Flat(s.shards), p);
    VerdictOnRecord(c, s.mem, s.live, p, Flat(s.shards)[p]);
    DamageIsVerdict(c, s.mem, s.live, p, Flat(s.shards)[p]);
  }

  lemma DamageIsVerdict(c: Config, m: seq<Byte>, live: map<nat, nat>, p: nat, r: Record)
    requires BlockOk(c, m, live, p, r)
    ensures r.rawPtr + HEADER_SIZE <= |m| && Checkable(m, r.rawPtr, FooterSize(c))
    ensures !Intact(c, m, r) ==> Verdict(m, r.rawPtr, FooterSize(c)) == Damage(m, r)
  {
    hide HeaderBytes, LeBytes, LeValue, TrueTotal, Pattern;
    VerdictOnRecord(c, m, live, p, r);
    VerdictIsExact(m, r.rawPtr, HeaderOf(c, r), FooterSize(c));
  }

  lemma FreeTracked(c: Config, s: State, p: nat)
    requires HeapInv(c, s) && p in Flat(s.shards)
    ensures CanCheck(c, s, p)
    ensures var s' := Deallocate(c, s, p); HeapInv(c, s') && Freed(c, s, s', p)
    ensures var s' := Deallocate(c, s, p);
      s'.nextId == s.nextId && s'.initialised == s.initialised && s'.guarded == s.guarded
  {
    hide Flat, Verdict, Framed, HeaderOf, Intact, BackLink, OnFree, BlocksOk, Poisoned, Poisonable, BlockOk, ShardIndex,
      ShardValid, CountersOk, LiveOk, SumRequested, MarkedFreed, Damage;
    TrackedIsCheckable(c, s, p);
    EraseRefines(s.shards, p);
    FlatLookup(s.shards, p);
    var recs := Flat(s.shards);
    var r := recs[p];
    CountsBelow(c, s.mem, s.live, recs);
    CountersShrink(s.counters, recs, p);
    DropBlock(c, s.mem, s.live, recs, p);
    PoisonMarks(c, s.mem, s.live, p, r);
    DropRecord(c, s.mem, s.live, recs, p);
    LiveInMemory(s.live, |s.mem|);
    var s' := Deallocate(c, s, p);
    assert s' == Release(c, s.(shards := Erase(s.shards, p)), p, r);
    assert Intact(c, s.mem, r) ==> s'.live == s.live - {r.rawPtr};
  }

  lemma FreeKeeps(c: Config, s: State, p: nat)
    requires Good(c, s) && Freeable(s, p)
    ensures CanCheck(c, s, p)
    ensures var s' := Deallocate(c, s, p);
      && Good(c, s') && RestUnchanged(s, s') && IntactKept(c, s, s')
      && s'.initialised == s.initialised && s'.guarded == s.guarded
      && (p == 0 ==> s' == s)
      && (p in Flat(s.shards) ==> Freed(c, s, s', p))
      && (p != 0 && p !in Flat(s.shards) && Quarantined(s.shards, p) ==>
            s' == s.(log := s.log + [Corrupted(p, DoubleFree)]))
      && (p != 0 && p !in Flat(s.shards) && !Quarantined(s.shards, p) ==> s' == s.(live := s.live - {p}))
  {
    hide Flat, Verdict, Framed, HeaderOf, Intact, BackLink, OnFree, BlocksOk, Poisoned, Poisonable, BlockOk, ShardIndex,
      ShardValid, CountersOk, LiveOk, HeapInv, Quarantined, Untracked;
    UnfoldInv(c, s);
    LiveInMemory(s.live, |s.mem|);
    EraseRefines(s.shards, p);
    FlatLookup(s.shards, p);
    IntactStays(c, s, s);
    if p != 0 && p in Flat(s.shards) {
      FreeTracked(c, s, p);
    } else if p != 0 {
      OnlyLogMatters(c, s, s.log + [Corrupted(p, DoubleFree)]);
      if PlainBlock(s, p) { RawFreeKeeps(c, s, p); }
    }
  }

  lemma IntactStays(c: Config, s: State, s': State)
    requires Shaped(s.shards) && s'.shards == s.shards && s'.mem == s.mem
    ensures IntactKept(c, s, s')
  {
    hide Flat, Intact;
  }

  lemma OnlyLogMatters(c: Config, s: State, log: seq<Alert>)
    requires HeapInv(c, s)
    ensures HeapInv(c, s.(log := log))
  {
    hide BlocksOk, CountersOk, LiveOk, TrackerSpec.Valid, Flat;
  }

  // ---------- client writes

  /** A stretch of a client's own memory: inside a tracked payload or inside a plain system block. */
  ghost predicate ClientOwns(s: State, from: nat, n: nat)
    requires Shaped(s.shards)
  {
    || (exists p :: p in Flat(s.shards) && p <= from && from + n <= p + Flat(s.shards)[p].requested)
    || (exists r :: r in s.live && Untracked(s, r) && r <= from && from + n <= r + s.live[r])
  }

  /** Bytes outside every outstanding block, which the allocator or others may write. */
  ghost predicate NobodysByte(s: State, at: nat) {
    at < |s.mem| && forall r :: r in s.live ==> !(r <= at < r + s.live[r])
  }

  predicate IsMetadataOf(c: Config, r: Record, i: int) {
    IsMetadata(r.rawPtr, HeaderOf(c, r), FooterSize(c), i)
  }

  /** Metadata lies inside the block's own range and outside its payload. */
  lemma MetadataInside(c: Config, m: seq<Byte>, live: map<nat, nat>, p: nat, r: Record, i: int)
    requires BlockOk(c, m, live, p, r) && IsMetadataOf(c, r, i)
    ensures r.rawPtr <= i < r.rawPtr + live[r.rawPtr] && !(p <= i < p + r.requested)
  {
    hide HeaderBytes, TrueTotal;
  }

  /** What a client owns is in memory and holds no metadata. */
  lemma OwnedIsNotMetadata(c: Config, s: State, from: nat, n: nat)
    requires HeapInv(c, s) && ClientOwns(s, from, n)
    ensures from + n <= |s.mem|
    ensures forall q, i :: q in Flat(s.shards) && from <= i < from + n ==> !IsMetadataOf(c, Flat(s.shards)[q], i)
  {
    hide Flat, BlocksOk, IsMetadataOf, ShardIndex, ShardValid, CountersOk;
    var recs := Flat(s.shards);
    LiveInMemory(s.live, |s.mem|);
    if p :| p in recs && p <= from && from + n <= p + recs[p].requested {
      PayloadInside(c, s.mem, s.live, recs, p);
      forall q, i | q in recs && from <= i < from + n ensures !IsMetadataOf(c, recs[q], i) {
        MetadataOfRecord(c, s.mem, s.live, recs, q, i);
        PayloadInside(c, s.mem, s.live, recs, q);
        if recs[p].rawPtr == recs[q].rawPtr { OneRaw(c, s.mem, s.live, recs, p, q); }
      }
    } else {
      forall q, i | q in recs && from <= i < from + n ensures !IsMetadataOf(c, recs[q], i) {
        MetadataOfRecord(c, s.mem, s.live, recs, q, i);
        PayloadInside(c, s.mem, s.live, recs, q);
      }
    }
  }

  lemma MetadataOfRecord(c: Config, m: seq<Byte>, live: map<nat, nat>, recs: Table, q: nat, i: int)
    requires BlocksOk(c, m, live, recs) && q in recs
    ensures recs[q].rawPtr in live
    ensures IsMetadataOf(c, recs[q], i) ==>
      recs[q].rawPtr <= i < recs[q].rawPtr + live[recs[q].rawPtr] && !(q <= i < q + recs[q].requested)
  {
    hide BlockOk, IsMetadataOf;
    PayloadInside(c, m, live, recs, q);
    assert BlockOk(c, m, live, q, recs[q]);
    if IsMetadataOf(c, recs[q], i) { MetadataInside(c, m, live, q, recs[q], i); }
  }

  lemma OneRaw(c: Config, m: seq<Byte>, live: map<nat, nat>, recs: Table, p: nat, q: nat)
    requires BlocksOk(c, m, live, recs) && p in recs && q in recs && recs[p].rawPtr == recs[q].rawPtr
    ensures p == q
  {
    hide BlockOk;
  }

  lemma PayloadInside(c: Config, m: seq<Byte>, live: map<nat, nat>, recs: Table, p: nat)
    requires BlocksOk(c, m, live, recs) && p in recs
    ensures recs[p].rawPtr in live && recs[p].rawPtr < p
    ensures p + recs[p].requested <= recs[p].rawPtr + live[recs[p].rawPtr]
  {
    hide HeaderBytes, TrueTotal;
    assert BlockOk(c, m, live, p, recs[p]);
  }

  lemma BlockWritten(c: Config, m: seq<Byte>, m': seq<Byte>, live: map<nat, nat>, p: nat, r: Record)
    requires BlockOk(c, m, live, p, r) && |m'| == |m|
    requires forall i :: 0 <= i < |m| && IsMetadataOf(c, r, i) ==> m'[i] == m[i]
    ensures BlockOk(c, m', live, p, r) && Intact(c, m', r) == Intact(c, m, r)
  {
    hide HeaderBytes, TrueTotal, Armed, IsMetadata, HeaderOf;
    MetadataDecides(m, m', r.rawPtr, HeaderOf(c, r), FooterSize(c));
  }

  /** Writes that leave every block's metadata alone keep the heap good and every block's state. */
  lemma WritesKeep(c: Config, s: State, m': seq<Byte>)
    requires HeapInv(c, s) && |m'| == |s.mem|
    requires forall q, i :: q in Flat(s.shards) && 0 <= i < |m'| && IsMetadataOf(c, Flat(s.shards)[q], i) ==>
      m'[i] == s.mem[i]
    ensures HeapInv(c, s.(mem := m')) && IntactKept(c, s, s.(mem := m'))
  {
    hide Flat, BlockOk, IsMetadataOf, ShardIndex, ShardValid, CountersOk, LiveOk, Intact;
    var recs := Flat(s.shards);
    forall q | q in recs
      ensures BlockOk(c, m', s.live, q, recs[q]) && Intact(c, m', recs[q]) == Intact(c, s.mem, recs[q])
    {
      BlockWritten(c, s.mem, m', s.live, q, recs[q]);
    }
  }

  /** A client's copy into its own memory keeps the heap good and every block's state. */
  lemma OwnWriteKeeps(c: Config, s: State, at: nat, bytes: seq<Byte>)
    requires HeapInv(c, s) && ClientOwns(s, at, |bytes|)
    ensures at + |bytes| <= |s.mem|
    ensures var s' := s.(mem := Put(s.mem, at, bytes)); HeapInv(c, s') && IntactKept(c, s, s')
  {
    hide HeapInv, ClientOwns, IsMetadataOf, Flat, IntactKept;
    UnfoldInv(c, s);
    OwnedIsNotMetadata(c, s, at, |bytes|);
    var m' := Put(s.mem, at, bytes);
    assert forall i :: 0 <= i < |m'| && !(at <= i < at + |bytes|) ==> m'[i] == s.mem[i];
    WritesKeep(c, s, m');
  }

  lemma NobodysByteIsNotMetadata(c: Config, s: State, at: nat)
    requires HeapInv(c, s) && NobodysByte(s, at)
    ensures forall q :: q in Flat(s.shards) ==> !IsMetadataOf(c, Flat(s.shards)[q], at)
  {
    hide Flat, BlocksOk, IsMetadataOf, ShardIndex, ShardValid, CountersOk, LiveOk;
    forall q | q in Flat(s.shards) ensures !IsMetadataOf(c, Flat(s.shards)[q], at) {
      MetadataOfRecord(c, s.mem, s.live, Flat(s.shards), q, at);
    }
  }

  lemma ForeignWriteKeeps(c: Config, s: State, at: nat, b: Byte)
    requires HeapInv(c, s) && NobodysByte(s, at)
    ensures var s' := s.(mem := Put(s.mem, at, [b])); HeapInv(c, s') && IntactKept(c, s, s')
  {
    hide HeapInv, IsMetadataOf, Flat, IntactKept;
    UnfoldInv(c, s);
    NobodysByteIsNotMetadata(c, s, at);
    var m' := Put(s.mem, at, [b]);
    assert forall i :: 0 <= i < |m'| && i != at ==> m'[i] == s.mem[i];
    WritesKeep(c, s, m');
  }

  // ---------- reallocate

  predicate EnvOk(c: Config, env: Env) {
    c.defaultTag < W64 && env.scopeTag < W64 && env.threadId < W32
  }

  /** A live record's alignment and tag can be asked for again. */
  lemma SaneAgain(c: Config, s: State, p: nat, n: nat, env: Env)
    requires HeapInv(c, s) && p in Flat(s.shards) && n < W64 && EnvOk(c, env)
    ensures var r := Flat(s.shards)[p];
      && Sane(c, n, r.alignment, r.tag, env)
      && Checkable(s.mem, r.rawPtr, FooterSize(c)) && p + r.requested <= |s.mem|
  {
    hide Flat, Verdict, Intact, HeapInv, BlocksOk, Framed, ShardValid, CountersOk, LiveOk, BlockOk;
    TrackedIsCheckable(c, s, p);
    UnfoldInv(c, s);
    LiveInMemory(s.live, |s.mem|);
    RecordIsSane(c, s.mem, s.live, p, Flat(s.shards)[p]);
  }

  lemma RecordIsSane(c: Config, m: seq<Byte>, live: map<nat, nat>, p: nat, r: Record)
    requires BlockOk(c, m, live, p, r) && r.rawPtr + live[r.rawPtr] <= |m|
    ensures p + r.requested <= |m|
    ensures |m| < W64 ==> r.alignment < W64 && r.tag < W64 && MaxOffset(r.alignment) + FooterSize(c) < W64
  {
    hide HeaderBytes, LeBytes;
  }

  lemma CheckOldOnlyLogs(c: Config, s: State, p: nat, r: Record)
    requires Checkable(s.mem, r.rawPtr, FooterSize(c))
    ensures CheckOld(c, s, p, r) == s.(log := CheckOld(c, s, p, r).log)
  {
    hide Verdict, Checkable;
  }

  /** The state and the address after the old block was checked and the new one allocated. */
  ghost function Grown(c: Config, s: State, p: nat, n: nat, env: Env): (State, nat)
    requires Good(c, s) && p in Flat(s.shards) && n < W64 && EnvOk(c, env)
  {
    hide HeapInv, Flat, Sane, Checkable, Verdict, BlocksOk, LiveOk, CountersOk, ShardValid, EnvOk, Allocate, CheckOld;
    UnfoldInv(c, s);
    SaneAgain(c, s, p, n, env);
    CheckOldOnlyLogs(c, s, p, Flat(s.shards)[p]);
    var r := Flat(s.shards)[p];
    Allocate(c, CheckOld(c, s, p, r), n, r.alignment, r.tag, env)
  }

  /** What the first half of a reallocation keeps. */
  lemma GrownKeeps(c: Config, s: State, p: nat, n: nat, env: Env)
    requires Good(c, s) && p in Flat(s.shards) && n < W64 && EnvOk(c, env)
    ensures var (s', q) := Grown(c, s, p, n, env); var r := Flat(s.shards)[p];
      && Good(c, s') && OthersUnchanged(s, s')
      && s'.initialised == s.initialised && s'.guarded == s.guarded
      && (q == 0 ==> SameHeap(s, s'.(log := s.log)))
      && (q != 0 && GetsTracked(c, s, n, env) ==> Added(c, s, s', q, s.nextId, n, r.alignment, r.tag, env))
      && (q != 0 && !GetsTracked(c, s, n, env) ==> AddedRaw(s, s'.(log := s.log), q, n, env.choice) && Untracked(s', q))
      && (Intact(c, s.mem, r) ==> OnlyLimitAlerts(s, s'))
  {
    hide Flat, Verdict, Framed, HeaderOf, Intact, BackLink, HeapInv, Sane, BlockOk, Allocate, OthersUnchanged, Added,
      Untracked, Decide;
    UnfoldInv(c, s);
    SaneAgain(c, s, p, n, env);
    TrackedIsCheckable(c, s, p);
    var r := Flat(s.shards)[p];
    var checked := CheckOld(c, s, p, r);
    OnlyLogMatters(c, s, checked.log);
    AllocateKeeps(c, checked, n, r.alignment, r.tag, env);
    UnfoldInv(c, Grown(c, s, p, n, env).0);
    LogDoesNotMatter(c, s, checked, Grown(c, s, p, n, env), s.nextId, n, r.alignment, r.tag, env);
  }

  lemma LogDoesNotMatter(c: Config, s: State, t: State, result: (State, nat), id: nat, size: nat, alignment: nat,
                         tag: nat, env: Env)
    requires t == s.(log := t.log) && Shaped(s.shards) && Shaped(result.0.shards)
    ensures OthersUnchanged(t, result.0) == OthersUnchanged(s, result.0)
    ensures Added(c, t, result.0, result.1, id, size, alignment, tag, env)
      == Added(c, s, result.0, result.1, id, size, alignment, tag, env)
  {
    hide Flat, Intact, IsPowerOfTwo, Aligned, OnAlloc;
  }

  lemma GrownBounds(c: Config, s: State, p: nat, n: nat, env: Env)
    requires Good(c, s) && p in Flat(s.shards) && n < W64 && EnvOk(c, env)
    ensures var (s', q) := Grown(c, s, p, n, env); var kept := Kept(Flat(s.shards)[p].requested, n);
      p + kept <= |s'.mem| && (q != 0 ==> q + kept <= |s'.mem|)
  {
    hide Good, HeapInv, Flat, Grown, Allocate, CheckOld, ClientOwns;
    GrownIsOwned(c, s, p, n, env);
  }

  /** The state and the address after the payload was copied over. */
  ghost function Copied(c: Config, s: State, p: nat, n: nat, env: Env): (State, nat)
    requires Good(c, s) && p in Flat(s.shards) && n < W64 && EnvOk(c, env)
  {
    hide Good, HeapInv, Flat, Grown, Allocate, CheckOld;
    GrownBounds(c, s, p, n, env);
    var (s', q) := Grown(c, s, p, n, env);
    if q == 0 then (s', 0) else (CopyPayload(s', p, q, Kept(Flat(s.shards)[p].requested, n)), q)
  }

  /** The new block belongs to the client, and the old record is still there. */
  lemma GrownIsOwned(c: Config, s: State, p: nat, n: nat, env: Env)
    requires Good(c, s) && p in Flat(s.shards) && n < W64 && EnvOk(c, env)
    ensures var (s', q) := Grown(c, s, p, n, env); var r := Flat(s.shards)[p];
      && HeapInv(c, s') && p in Flat(s'.shards) && Flat(s'.shards)[p] == r
      && p + r.requested <= |s'.mem|
      && (q != 0 ==> q != p && ClientOwns(s', q, Kept(r.requested, n)) && q + Kept(r.requested, n) <= |s'.mem|)
  {
    hide Flat, Verdict, Framed, HeaderOf, Intact, BackLink, HeapInv, Sane, BlockOk, Grown, Decide, SameOn, BlocksOk,
      LiveOk;
    UnfoldInv(c, s);
    SaneAgain(c, s, p, n, env);
    GrownKeeps(c, s, p, n, env);
    var (s', q) := Grown(c, s, p, n, env);
    UnfoldInv(c, s');
    if q != 0 {
      if GetsTracked(c, s, n, env) {
        assert q in Flat(s'.shards) && Flat(s'.shards)[q].requested == n;
      } else {
        assert q in s'.live && Untracked(s', q) && s'.live[q] == n;
        UserIsNoBlock(c, s'.mem, s'.live, Flat(s'.shards), p);
      }
      OwnedIsNotMetadata(c, s', q, Kept(Flat(s.shards)[p].requested, n));
    }
  }

  lemma CopiedKeeps(c: Config, s: State, p: nat, n: nat, env: Env)
    requires Good(c, s) && p in Flat(s.shards) && n < W64 && EnvOk(c, env)
    ensures var (s', q) := Copied(c, s, p, n, env); var g := Grown(c, s, p, n, env).0;
      && Good(c, g) && Good(c, s') && IntactKept(c, g, s') && q == Grown(c, s, p, n, env).1
      && p in Flat(s'.shards) && CanCheck(c, s', p)
  {
    hide Flat, HeapInv, Grown, OthersUnchanged, Decide, IntactKept, ClientOwns, Added, AddedRaw, Untracked,
      OnlyLimitAlerts, SameHeap, CanCheck, BlocksOk, LiveOk, CountersOk, ShardValid, BlockOk, Intact, Sane, EnvOk, Put,
      FinalTag, Verdict, GetsTracked;
    UnfoldInv(c, s);
    GrownIsOwned(c, s, p, n, env);
    GrownKeeps(c, s, p, n, env);
    var (s', q) := Grown(c, s, p, n, env);
    UnfoldInv(c, s');
    IntactStays(c, s', s');
    if q != 0 {
      OwnWriteKeeps(c, s', q, s'.mem[p..p + Kept(Flat(s.shards)[p].requested, n)]);
    }
    TrackedIsCheckable(c, Copied(c, s, p, n, env).0, p);
  }

  /** `reallocate` of a live tracked pointer to a nonzero size. */
  ghost function ReallocateTracked(c: Config, s: State, p: nat, n: nat, env: Env): (State, nat)
    requires Good(c, s) && p in Flat(s.shards) && n < W64 && EnvOk(c, env)
  {
    CopiedKeeps(c, s, p, n, env);
    var (s', q) := Copied(c, s, p, n, env);
    if q == 0 then (s', 0) else (Deallocate(c, s', p), q)
  }

  /**
   What a successful reallocation does: the first bytes of the payload are in a new block at `b`, the
   old block is given back if it was intact, every other block and record is as it was, and `p` is dead.
   */
  ghost predicate Moved(c: Config, s: State, s': State, p: nat, q: nat, n: nat, b: nat)
    requires Shaped(s.shards) && Shaped(s'.shards) && p in Flat(s.shards)
  {
    var r := Flat(s.shards)[p];
    var kept := if n < r.requested then n else r.requested;
    && |s'.mem| == |s.mem| && p + r.requested <= |s.mem| && q + n <= |s.mem|
    && s'.mem[q..q + kept] == s.mem[p..p + kept]
    && b !in s.live && b in s'.live && b <= q && q + n <= b + s'.live[b]
    && (forall x :: x in s'.live ==> x == b || x in s.live)
    && (forall x :: x in s.live ==> (x in s'.live <==> !(x == r.rawPtr && Intact(c, s.mem, r))))
    && (forall x :: x in s.live && x in s'.live ==>
          s'.live[x] == s.live[x] && SameOn(s.mem, s'.mem, x, s.live[x]))
    && p !in Flat(s'.shards) && Quarantined(s'.shards, p)
    && (forall x :: x in Flat(s.shards) && x != p ==>
          x in Flat(s'.shards) && Flat(s'.shards)[x] == Flat(s.shards)[x])
  }

  /** The outstanding block that the new payload lies in. */
  lemma NewHome(c: Config, s: State, p: nat, n: nat, env: Env) returns (b: nat)
    requires Good(c, s) && p in Flat(s.shards) && n < W64 && EnvOk(c, env) && Grown(c, s, p, n, env).1 != 0
    ensures var (g, q) := Grown(c, s, p, n, env);
      && b == env.choice && b !in s.live && b in g.live
      && b <= q && q + n <= b + g.live[b] && b + g.live[b] <= |g.mem|
      && g.live == s.live[b := g.live[b]]
  {
    hide Flat, Verdict, Framed, HeaderOf, Intact, BackLink, HeapInv, Sane, BlockOk, Grown, Decide, SameOn, BlocksOk,
      LiveOk;
    GrownKeeps(c, s, p, n, env);
    var (g, q) := Grown(c, s, p, n, env);
    UnfoldInv(c, s);
    UnfoldInv(c, g);
    LiveInMemory(g.live, |g.mem|);
    if GetsTracked(c, s, n, env) {
      PayloadInside(c, g.mem, g.live, Flat(g.shards), q);
      b := Flat(g.shards)[q].rawPtr;
    } else {
      b := q;
    }
  }

  /** Storing inside one outstanding block leaves the others alone. */
  lemma OtherBlocksSame(live: map<nat, nat>, m: seq<Byte>, b: nat, at: nat, bytes: seq<Byte>)
    requires LiveOk(live, |m|) && b in live && b <= at && at + |bytes| <= b + live[b]
    ensures at + |bytes| <= |m|
    ensures forall x :: x in live && x != b ==> SameOn(m, Put(m, at, bytes), x, live[x])
    ensures Put(m, at, bytes)[at..at + |bytes|] == bytes
  {
    hide Put;
    PutReads(m, at, bytes, at, |bytes|);
    forall x | x in live && x != b ensures SameOn(m, Put(m, at, bytes), x, live[x]) {
      PutSameOn(m, at, bytes, x, live[x]);
    }
  }

  lemma PutSameOn(m: seq<Byte>, at: nat, bytes: seq<Byte>, from: nat, n: nat)
    requires at + |bytes| <= |m| && from + n <= |m| && (from + n <= at || at + |bytes| <= from)
    ensures SameOn(m, Put(m, at, bytes), from, n)
  {
  }

  lemma SameOnSlice(m: seq<Byte>, m': seq<Byte>, from: nat, n: nat, a: nat, b: nat)
    requires SameOn(m, m', from, n) && from <= a <= b <= from + n
    ensures m'[a..b] == m[a..b]
  {
  }

  lemma SameOnTwice(m: seq<Byte>, m': seq<Byte>, m'': seq<Byte>, from: nat, n: nat)
    requires SameOn(m, m', from, n) && SameOn(m', m'', from, n)
    ensures SameOn(m, m'', from, n)
  {
  }

  /** Growing from `s` to `g`, copying to `k` and freeing to `s'` moves the payload. */
  lemma MovesThrough(c: Config, s: State, g: State, k: State, s': State, p: nat, q: nat, n: nat, b: nat)
    requires Shaped(s.shards) && Shaped(g.shards) && Shaped(s'.shards) && p in Flat(s.shards)
    requires OthersUnchanged(s, g) && b !in s.live && b in g.live && g.live == s.live[b := g.live[b]]
    requires LiveOk(g.live, |g.mem|) && LiveOk(s.live, |s.mem|)
    requires var r := Flat(s.shards)[p];
      && r.rawPtr in s.live && r.rawPtr <= p && p + r.requested <= r.rawPtr + s.live[r.rawPtr]
      && b <= q && q + n <= b + g.live[b] && b + g.live[b] <= |g.mem|
      && p + r.requested <= |g.mem| && q + Kept(r.requested, n) <= |g.mem|
      && k == CopyPayload(g, p, q, Kept(r.requested, n))
      && p in Flat(g.shards) && Flat(g.shards)[p] == r && Intact(c, k.mem, r) == Intact(c, s.mem, r)
    requires forall x :: x in Flat(s.shards) ==> x in Flat(g.shards) && Flat(g.shards)[x] == Flat(s.shards)[x]
    requires Freed(c, k, s', p)
    ensures Moved(c, s, s', p, q, n, b)
  {
    hide Flat, Intact, SameOn, Put, LiveOk, OnFree, Quarantined, IntactKept, ShardIndex, MarkedFreed, Damage,
      OthersUnchanged, RestUnchanged;
    var r := Flat(s.shards)[p];
    FreedBlocks(c, k, s', p);
    LiveInMemory(s.live, |s.mem|);
    PayloadMoves(s, g, k, s', r.rawPtr, p, q, Kept(r.requested, n), b);
    forall x | x in s.live && x in s'.live ensures s'.live[x] == s.live[x] && SameOn(s.mem, s'.mem, x, s.live[x]) {
      BlockSurvives(s, g, k, s', p, q, Kept(r.requested, n), b, x);
    }
  }

  lemma FreedBlocks(c: Config, k: State, s': State, p: nat)
    requires Shaped(k.shards) && Shaped(s'.shards) && p in Flat(k.shards) && Freed(c, k, s', p)
    ensures RestUnchanged(k, s') && p !in Flat(s'.shards) && Quarantined(s'.shards, p)
    ensures Flat(s'.shards) == Flat(k.shards) - {p}
    ensures var r := Flat(k.shards)[p]; s'.live == if Intact(c, k.mem, r) then k.live - {r.rawPtr} else k.live
    ensures |s'.mem| == |k.mem|
  {
    hide Flat, Intact, SameOn, OnFree, Quarantined, IntactKept, MarkedFreed, Damage;
  }

  /** The bytes that were copied are still there after the old block was freed. */
  lemma PayloadMoves(s: State, g: State, k: State, s': State, raw: nat, p: nat, q: nat, kept: nat, b: nat)
    requires OthersUnchanged(s, g) && LiveOk(g.live, |g.mem|) && raw in s.live && b in g.live && b != raw
    requires raw <= p && p + kept <= raw + s.live[raw] <= |s.mem|
    requires b <= q && q + kept <= b + g.live[b] <= |g.mem| && p + kept <= |g.mem|
    requires k == CopyPayload(g, p, q, kept) && RestUnchanged(k, s') && b in s'.live
    ensures |s'.mem| == |s.mem| && s'.mem[q..q + kept] == s.mem[p..p + kept]
  {
    hide Put, LiveOk, SameOn;
    OtherBlocksSame(g.live, g.mem, b, q, g.mem[p..p + kept]);
    assert SameOn(s.mem, g.mem, raw, s.live[raw]) && SameOn(k.mem, s'.mem, b, g.live[b]);
    SameOnSlice(s.mem, g.mem, raw, s.live[raw], p, p + kept);
    SameOnSlice(k.mem, s'.mem, b, g.live[b], q, q + kept);
  }

  /** What is outstanding all along keeps its bytes. */
  lemma BlockSurvives(s: State, g: State, k: State, s': State, p: nat, q: nat, kept: nat, b: nat, x: nat)
    requires OthersUnchanged(s, g) && LiveOk(g.live, |g.mem|) && b in g.live && b != x && x in s.live && x in s'.live
    requires b <= q && q + kept <= b + g.live[b] <= |g.mem| && p + kept <= |g.mem|
    requires k == CopyPayload(g, p, q, kept) && RestUnchanged(k, s')
    ensures s'.live[x] == s.live[x] && SameOn(s.mem, s'.mem, x, s.live[x])
  {
    hide Put, LiveOk, SameOn;
    OtherBlocksSame(g.live, g.mem, b, q, g.mem[p..p + kept]);
    SameOnTwice(s.mem, g.mem, k.mem, x, s.live[x]);
    SameOnTwice(s.mem, k.mem, s'.mem, x, s.live[x]);
  }

  /** Growing keeps every record and every block's state. */
  lemma GrownRecords(c: Config, s: State, p: nat, n: nat, env: Env)
    requires Good(c, s) && p in Flat(s.shards) && n < W64 && EnvOk(c, env)
    ensures var g := Grown(c, s, p, n, env).0;
      && HeapInv(c, g)
      && forall x :: x in Flat(s.shards) ==>
           && x in Flat(g.shards) && Flat(g.shards)[x] == Flat(s.shards)[x]
           && Intact(c, g.mem, Flat(s.shards)[x]) == Intact(c, s.mem, Flat(s.shards)[x])
  {
    hide Flat, Intact, HeapInv, Grown, Decide, OthersUnchanged, Untracked, IsPowerOfTwo, Aligned, OnAlloc,
      OnlyLimitAlerts, BlocksOk, LiveOk, CountersOk, ShardValid;
    UnfoldInv(c, s);
    GrownKeeps(c, s, p, n, env);
    UnfoldInv(c, Grown(c, s, p, n, env).0);
  }

  lemma CopiedIntact(c: Config, s: State, p: nat, n: nat, env: Env)
    requires Good(c, s) && p in Flat(s.shards) && n < W64 && EnvOk(c, env)
    ensures var k := Copied(c, s, p, n, env).0;
      && HeapInv(c, k)
      && p in Flat(k.shards) && Flat(k.shards)[p] == Flat(s.shards)[p]
      && Intact(c, k.mem, Flat(s.shards)[p]) == Intact(c, s.mem, Flat(s.shards)[p])
  {
    hide Flat, Intact, HeapInv, Grown, Put;
    UnfoldInv(c, s);
    GrownRecords(c, s, p, n, env);
    CopiedKeeps(c, s, p, n, env);
    UnfoldInv(c, Copied(c, s, p, n, env).0);
  }

  /** A successful reallocation moves the payload to a new block and leaves everything else alone. */
  lemma ReallocateMoves(c: Config, s: State, p: nat, n: nat, env: Env)
    requires Good(c, s) && p in Flat(s.shards) && n < W64 && EnvOk(c, env)
    requires ReallocateTracked(c, s, p, n, env).1 != 0
    ensures var (s', q) := ReallocateTracked(c, s, p, n, env); Good(c, s') && Moved(c, s, s', p, q, n, env.choice)
  {
    hide Flat, Verdict, Framed, HeaderOf, Intact, BackLink, HeapInv, Sane, BlockOk, Grown, Decide, SameOn, BlocksOk,
      LiveOk, Deallocate, OnFree, CountersOk, OthersUnchanged, Moved, Freed, Put, Added, AddedRaw, Untracked,
      IntactKept, OnlyLimitAlerts, SameHeap, ShardValid, ShardIndex, EnvOk;
    GrownKeeps(c, s, p, n, env);
    GrownIsOwned(c, s, p, n, env);
    CopiedKeeps(c, s, p, n, env);
    var (g, q) := Grown(c, s, p, n, env);
    var k := Copied(c, s, p, n, env).0;
    var b := NewHome(c, s, p, n, env);
    UnfoldInv(c, g);
    UnfoldInv(c, s);
    PayloadInside(c, s.mem, s.live, Flat(s.shards), p);
    GrownRecords(c, s, p, n, env);
    CopiedIntact(c, s, p, n, env);
    FreeKeeps(c, k, p);
    UnfoldInv(c, k);
    UnfoldInv(c, Deallocate(c, k, p));
    MovesThrough(c, s, g, k, Deallocate(c, k, p), p, q, n, b);
  }

  /** A tracked addition in numbers. */
  lemma AddedCounts(c: Config, s: State, g: State, q: nat, id: nat, n: nat, alignment: nat, tag: nat, env: Env)
    requires HeapInv(c, s) && HeapInv(c, g) && Added(c, s, g, q, id, n, alignment, tag, env)
    ensures g.counters.current == s.counters.current + n && g.counters.active == s.counters.active + 1
    ensures g.counters.peak >= g.counters.current && g.counters.peak >= s.counters.peak
  {
    hide Flat, BlocksOk, LiveOk, ShardValid, ShardIndex, SumRequested, Intact, OthersUnchanged, IsPowerOfTwo, Wrap;
    SumWith(Flat(s.shards), q, Flat(g.shards)[q]);
  }

  /**
   Reallocating through the tracker keeps alignment and tag, leaves the number of live allocations
   alone, moves the byte count by the difference, and counts both blocks at once in the peak.
   */
  lemma ReallocateCounts(c: Config, s: State, p: nat, n: nat, env: Env)
    requires Good(c, s) && p in Flat(s.shards) && n < W64 && EnvOk(c, env)
    requires GetsTracked(c, s, n, env) && ReallocateTracked(c, s, p, n, env).1 != 0
    ensures var (s', q) := ReallocateTracked(c, s, p, n, env); var r := Flat(s.shards)[p];
      && HeapInv(c, s')
      && s'.counters.active == s.counters.active
      && s'.counters.current == s.counters.current - r.requested + n
      && s'.counters.peak >= s.counters.current + n
      && q in Flat(s'.shards) && Flat(s'.shards)[q].requested == n && Flat(s'.shards)[q].alignment == r.alignment
      && Filled(c, Flat(s'.shards)[q], q, s.nextId, n, r.alignment, r.tag, env)
      && Flat(s'.shards).Keys == Flat(s.shards).Keys - {p} + {q} && q !in Flat(s.shards)
      && Intact(c, s'.mem, Flat(s'.shards)[q])
  {
    hide Flat, BlocksOk, LiveOk, ShardValid, ShardIndex, CountersOk, HeapInv, Intact, OthersUnchanged, IsPowerOfTwo,
      Wrap, Grown, Deallocate, OnlyLimitAlerts, SameHeap, Decide, RestUnchanged, Put, ClientOwns, LaidOut,
      MarkedFreed, Damage, SumRequested, AddedRaw, Aligned;
    GrownKeeps(c, s, p, n, env);
    GrownIsOwned(c, s, p, n, env);
    CopiedKeeps(c, s, p, n, env);
    CopiedIntact(c, s, p, n, env);
    var (g, q) := Grown(c, s, p, n, env);
    var k := Copied(c, s, p, n, env).0;
    FreeKeeps(c, k, p);
    UnfoldInv(c, s);
    UnfoldInv(c, g);
    UnfoldInv(c, k);
    UnfoldInv(c, Deallocate(c, k, p));
    var r := Flat(s.shards)[p];
    AddedCounts(c, s, g, q, s.nextId, n, r.alignment, r.tag, env);
    AlignmentIsEffective(c, s, p);
  }

  lemma AlignmentIsEffective(c: Config, s: State, p: nat)
    requires HeapInv(c, s) && p in Flat(s.shards)
    ensures EffectiveAlignment(Flat(s.shards)[p].alignment) == Flat(s.shards)[p].alignment
  {
    hide Flat, LiveOk, ShardValid, ShardIndex, CountersOk, Framed;
    assert BlockOk(c, s.mem, s.live, p, Flat(s.shards)[p]);
  }

  /** When the new block cannot be had, the old block and its record survive. */
  lemma ReallocateFails(c: Config, s: State, p: nat, n: nat, env: Env)
    requires Good(c, s) && p in Flat(s.shards) && n < W64 && EnvOk(c, env)
    requires ReallocateTracked(c, s, p, n, env).1 == 0
    ensures var s' := ReallocateTracked(c, s, p, n, env).0;
      Good(c, s') && SameHeap(s, s'.(log := s.log))
  {
    hide Flat, HeapInv, Grown, Decide;
    GrownKeeps(c, s, p, n, env);
    CopiedKeeps(c, s, p, n, env);
  }

  /** What the check of the old block reports: nothing if it is intact or canaries are off. */
  ghost function OldReport(c: Config, s: State, p: nat): seq<Alert>
    requires Shaped(s.shards) && p in Flat(s.shards) && Flat(s.shards)[p].rawPtr + HEADER_SIZE <= |s.mem|
  {
    if c.enableCanary && !Intact(c, s.mem, Flat(s.shards)[p])
    then [Corrupted(p, Damage(s.mem, Flat(s.shards)[p]))] else []
  }

  /** What the watchdog reports when a call leaves `current` live bytes. */
  function LimitReport(c: Config, current: nat): seq<Alert> {
    if c.maxHeapBytes > 0 && c.hasWatchdog && current > c.maxHeapBytes
    then [LimitExceeded(current, c.maxHeapBytes)] else []
  }

  lemma CheckOldReports(c: Config, s: State, p: nat)
    requires HeapInv(c, s) && p in Flat(s.shards)
    ensures var r := Flat(s.shards)[p];
      && r.rawPtr + HEADER_SIZE <= |s.mem| && Checkable(s.mem, r.rawPtr, FooterSize(c))
      && CheckOld(c, s, p, r) == s.(log := s.log + OldReport(c, s, p))
  {
    hide Flat, Verdict, Intact, HeapInv, BlockOk, Damage, CanCheck;
    UnfoldInv(c, s);
    TrackedIsCheckable(c, s, p);
    SaneFree(c, s, p);
  }

  lemma SaneFree(c: Config, s: State, p: nat)
    requires HeapInv(c, s) && p in Flat(s.shards)
    ensures Checkable(s.mem, Flat(s.shards)[p].rawPtr, FooterSize(c))
  {
    hide Flat, HeapInv, Verdict, BlockOk;
    UnfoldInv(c, s);
    TrackedIsCheckable(c, s, p);
  }

  /** The alerts of an allocation. */
  lemma AllocateReports(c: Config, s: State, size: nat, alignment: nat, tag: nat, env: Env)
    requires Good(c, s) && Sane(c, size, alignment, tag, env)
    ensures var (s', p) := Allocate(c, s, size, alignment, tag, env);
      s'.log == s.log + if p != 0 && GetsTracked(c, s, size, env) then LimitReport(c, s.counters.current + size) else []
  {
    hide HeapInv, Sane, Allocate, OthersUnchanged, Added, Untracked, Decide, OnlyLimitAlerts, BlocksOk, LiveOk,
      CountersOk, ShardValid, Flat;
    UnfoldInv(c, s);
    AllocateKeeps(c, s, size, alignment, tag, env);
    if Allocate(c, s, size, alignment, tag, env).1 != 0 && GetsTracked(c, s, size, env) {
      LimitIsReportedIff(c, s, size, alignment, tag, env);
    }
  }

  /** The first half of a reallocation is an allocation after the report on the old block. */
  lemma GrownIsAllocate(c: Config, s: State, p: nat, n: nat, env: Env)
    requires Good(c, s) && p in Flat(s.shards) && n < W64 && EnvOk(c, env)
    ensures Flat(s.shards)[p].rawPtr + HEADER_SIZE <= |s.mem|
    ensures var r, checked := Flat(s.shards)[p], s.(log := s.log + OldReport(c, s, p));
      && Good(c, checked) && Sane(c, n, r.alignment, r.tag, env) && |s.mem| < W64
      && Grown(c, s, p, n, env) == Allocate(c, checked, n, r.alignment, r.tag, env)
  {
    hide Flat, Verdict, HeapInv, Sane, Allocate, OldReport, Checkable, CheckOld, EnvOk;
    UnfoldInv(c, s);
    SaneAgain(c, s, p, n, env);
    CheckOldReports(c, s, p);
    OnlyLogMatters(c, s, s.log + OldReport(c, s, p));
  }

  /** The alerts of the first half of a reallocation, in order. */
  lemma GrownReports(c: Config, s: State, p: nat, n: nat, env: Env)
    requires Good(c, s) && p in Flat(s.shards) && n < W64 && EnvOk(c, env)
    ensures Flat(s.shards)[p].rawPtr + HEADER_SIZE <= |s.mem|
    ensures var (g, q) := Grown(c, s, p, n, env);
      g.log == s.log + OldReport(c, s, p)
               + if q != 0 && GetsTracked(c, s, n, env) then LimitReport(c, s.counters.current + n) else []
  {
    hide Flat, Sane, Allocate, OldReport, EnvOk, LimitReport, GetsTracked, Grown, HeapInv;
    assert Shaped(s.shards) by { UnfoldInv(c, s); }
    GrownIsAllocate(c, s, p, n, env);
    var r, log := Flat(s.shards)[p], s.log + OldReport(c, s, p);
    AllocateReports(c, s.(log := log), n, r.alignment, r.tag, env);
    TracksWhateverTheLog(c, s, log, n, env);
  }

  lemma TracksWhateverTheLog(c: Config, s: State, log: seq<Alert>, size: nat, env: Env)
    ensures GetsTracked(c, s.(log := log), size, env) == GetsTracked(c, s, size, env)
  {
  }
}
