/**
 The invariant of the whole heap: every tracked record describes a block whose metadata is in
 place inside its own outstanding range, and the counters account for exactly these records.
 Every entry point keeps it.
 */
module HeapInvariant {
  import opened Words
  import opened Layout
  import opened Block
  import opened BlockProofs
  import opened BlockBytes
  import opened Records
  import opened TrackerSpec
  import opened Stats
  import opened Sampling
  import opened SystemHeap
  import opened ManagerSpec

  /** The header a record's block was given. */
  function HeaderOf(c: Config, r: Record): Header {
    var offset := if r.rawPtr <= r.userPtr then r.userPtr - r.rawPtr else 0;
    Header(LIVE_MAGIC, r.allocationId, r.requested, offset + r.requested + FooterSize(c), offset,
           r.alignment, HeaderTag(r.tag), c.enableCanary, r.threadId)
  }

  ghost predicate BlockOk(c: Config, m: seq<Byte>, live: map<nat, nat>, p: nat, r: Record) {
    && r.userPtr == p && r.rawPtr <= p
    && r.rawPtr in live && live[r.rawPtr] == r.total
    && Framed(m, r.rawPtr, HeaderOf(c, r), FooterSize(c))
    && p + r.requested + FooterSize(c) < r.rawPtr + r.total
    && r.total == TrueTotal(r.requested, r.alignment, FooterSize(c)) && r.alignment >= MAX_ALIGN
  }

  ghost predicate BlocksOk(c: Config, m: seq<Byte>, live: map<nat, nat>, recs: Table) {
    && (forall p :: p in recs ==> BlockOk(c, m, live, p, recs[p]))
    && (forall p, q :: p in recs && q in recs && p != q ==> recs[p].rawPtr != recs[q].rawPtr)
  }

  ghost predicate CountersOk(counters: Counters, recs: Table) {
    && counters.current == SumRequested(recs)
    && counters.active == |recs|
    && counters.current <= counters.peak
  }

  ghost predicate HeapInv(c: Config, s: State) {
    && |s.mem| < W64
    && TrackerSpec.Valid(s.shards)
    && LiveOk(s.live, |s.mem|)
    && BlocksOk(c, s.mem, s.live, Flat(s.shards))
    && CountersOk(s.counters, Flat(s.shards))
  }

  /** The block of record `r` has its live magic and every footer byte. */
  ghost predicate Intact(c: Config, m: seq<Byte>, r: Record) {
    && r.rawPtr <= r.userPtr
    && InBounds(m, r.rawPtr, HeaderOf(c, r), FooterSize(c))
    && Armed(m, r.rawPtr, HeaderOf(c, r), FooterSize(c))
  }

  ghost predicate AllIntact(c: Config, s: State)
    requires Shaped(s.shards)
  {
    forall p :: p in Flat(s.shards) ==> Intact(c, s.mem, Flat(s.shards)[p])
  }

  /** The same bytes in a range. */
  ghost predicate SameOn(m: seq<Byte>, m': seq<Byte>, from: nat, n: nat) {
    |m| == |m'| && from + n <= |m| && forall i :: from <= i < from + n ==> m'[i] == m[i]
  }

  lemma BlockKept(c: Config, m: seq<Byte>, m': seq<Byte>, live: map<nat, nat>, live': map<nat, nat>, p: nat, r: Record)
    requires BlockOk(c, m, live, p, r) && SameOn(m, m', r.rawPtr, r.total)
    requires r.rawPtr in live' && live'[r.rawPtr] == live[r.rawPtr]
    ensures BlockOk(c, m', live', p, r)
    ensures Intact(c, m', r) == Intact(c, m, r)
  {
    MetadataDecides(m, m', r.rawPtr, HeaderOf(c, r), FooterSize(c));
  }

  // ---------- the counters cannot wrap

  lemma PayloadsApart(c: Config, m: seq<Byte>, live: map<nat, nat>, recs: Table)
    requires LiveOk(live, |m|) && BlocksOk(c, m, live, recs)
    ensures Apart(recs) && SumRequested(recs) <= |m|
  {
    hide Framed, HeaderOf, SumRequested, TrueTotal;
    forall p, q | p in recs && q in recs && p != q
      ensures p + recs[p].requested <= q || q + recs[q].requested <= p
    {
      assert BlockOk(c, m, live, p, recs[p]) && BlockOk(c, m, live, q, recs[q]);
    }
    forall p | p in recs ensures p + recs[p].requested <= |m| {
      assert BlockOk(c, m, live, p, recs[p]);
    }
    ApartSumsBelow(recs, |m|);
  }

  /** A record's user address lies strictly inside its own outstanding range. */
  lemma UserInRange(c: Config, m: seq<Byte>, live: map<nat, nat>, recs: Table, p: nat)
    requires BlocksOk(c, m, live, recs) && p in recs
    ensures recs[p].rawPtr in live && recs[p].rawPtr < p < recs[p].rawPtr + live[recs[p].rawPtr]
    ensures recs[p].rawPtr + recs[p].total == recs[p].rawPtr + live[recs[p].rawPtr]
  {
    assert BlockOk(c, m, live, p, recs[p]);
  }

  /** No outstanding block starts at a tracked user address. */
  lemma UserIsNoBlock(c: Config, m: seq<Byte>, live: map<nat, nat>, recs: Table, p: nat)
    requires LiveOk(live, |m|) && BlocksOk(c, m, live, recs) && p in recs
    ensures p !in live
  {
    hide BlocksOk;
    UserInRange(c, m, live, recs, p);
  }

  // ---------- a new block

  /** Where and how a new block is placed, when malloc answered `raw`. */
  lemma Placed(c: Config, m: seq<Byte>, live: map<nat, nat>, raw: nat, id: nat, size: nat, alignment: nat, tag: nat,
               env: Env)
    requires |m| < W64 && Sane(c, size, alignment, tag, env) && id < W64
    requires var total := CalculateTotalSize(size, EffectiveAlignment(alignment), FooterSize(c));
      total != 0 && CanGive(live, |m|, raw, total)
    ensures raw + MaxOffset(alignment) <= W64
    ensures var total := CalculateTotalSize(size, EffectiveAlignment(alignment), FooterSize(c));
      var h := NewHeader(c, raw, id, size, alignment, tag, env);
      && InBounds(m, raw, h, FooterSize(c))
      && raw + h.userOffset + size + FooterSize(c) < raw + total <= |m|
      && total == TrueTotal(size, EffectiveAlignment(alignment), FooterSize(c))
      && HeaderOf(c, NewRecord(h, FinalTag(c, tag, env), raw, total, env.frames)) == h
      && raw + h.userOffset == UserAddress(raw, EffectiveAlignment(alignment))
  {
    hide UserAddress;
    PartsFitInTotal(raw, size, EffectiveAlignment(alignment), FooterSize(c));
  }

  lemma PlacedAligned(raw: nat, alignment: nat)
    requires IsPowerOfTwo(alignment) && raw + MaxOffset(alignment) <= W64
    ensures Aligned(UserAddress(raw, EffectiveAlignment(alignment)), alignment)
  {
    hide UserAddress;
    var k := EffectiveIsPowerOfTwo(alignment);
    UserAddressAligned(raw, EffectiveAlignment(alignment));
  }

  lemma InitialisedSameOn(m: seq<Byte>, raw: nat, h: Header, footer: nat, from: nat, n: nat)
    requires InBounds(m, raw, h, footer) && from + n <= |m|
    requires from + n <= raw || raw + h.userOffset + h.requested + footer <= from
    ensures SameOn(m, Initialised(m, raw, h, footer), from, n)
  {
    hide Initialised;
    forall i | from <= i < from + n ensures Initialised(m, raw, h, footer)[i] == m[i] {
      InitialisedFrame(m, raw, h, footer, i);
    }
  }

  /** Record `r` and header `h` describe a block of `total` bytes at `raw`. */
  ghost predicate Fitting(c: Config, m: seq<Byte>, raw: nat, total: nat, h: Header, r: Record) {
    && InBounds(m, raw, h, FooterSize(c)) && h.magic == LIVE_MAGIC
    && r.rawPtr == raw && r.userPtr == raw + h.userOffset && r.total == total && r.requested == h.requested
    && HeaderOf(c, r) == h
    && raw + h.userOffset + h.requested + FooterSize(c) < raw + total
    && total == TrueTotal(r.requested, r.alignment, FooterSize(c)) && r.alignment >= MAX_ALIGN
  }

  /** Adding a freshly laid out block to a good heap. */
  lemma AddBlock(c: Config, m: seq<Byte>, live: map<nat, nat>, recs: Table, raw: nat, total: nat, h: Header, r: Record)
    requires LiveOk(live, |m|) && BlocksOk(c, m, live, recs)
    requires CanGive(live, |m|, raw, total) && Fitting(c, m, raw, total, h, r)
    ensures var m' := Initialised(m, raw, h, FooterSize(c)); var live' := live[raw := total];
      && r.userPtr !in recs
      && LiveOk(live', |m|)
      && BlocksOk(c, m', live', recs[r.userPtr := r])
      && Intact(c, m', r)
      && forall q :: q in recs ==> Intact(c, m', recs[q]) == Intact(c, m, recs[q])
  {
    hide Initialised, Framed, Armed, HeaderOf, TrueTotal, BlocksOk, CanGive, Intact, BlockOk;
    var m' := Initialised(m, raw, h, FooterSize(c));
    var live' := live[raw := total];
    GivenKeeps(live, |m|, raw, total);
    NewBlockOk(c, m, live', raw, total, h, r);
    forall q | q in recs
      ensures BlockOk(c, m', live', q, recs[q]) && Intact(c, m', recs[q]) == Intact(c, m, recs[q])
      ensures recs[q].rawPtr != raw && q != r.userPtr
    {
      OtherBlockStays(c, m, live, recs, raw, total, h, q);
    }
    WithBlock(c, m, m', live, live', recs, r);
  }

  lemma GivenKeeps(live: map<nat, nat>, limit: nat, raw: nat, total: nat)
    requires LiveOk(live, limit) && CanGive(live, limit, raw, total)
    ensures LiveOk(live[raw := total], limit)
  {
  }

  /** The new block itself is as its record says. */
  lemma NewBlockOk(c: Config, m: seq<Byte>, live: map<nat, nat>, raw: nat, total: nat, h: Header, r: Record)
    requires Fitting(c, m, raw, total, h, r) && raw in live && live[raw] == total
    ensures BlockOk(c, Initialised(m, raw, h, FooterSize(c)), live, r.userPtr, r)
    ensures Intact(c, Initialised(m, raw, h, FooterSize(c)), r)
  {
    hide Initialised, Framed, Armed, HeaderOf, TrueTotal;
    InitialisedIsArmed(m, raw, h, FooterSize(c));
  }

  /** Laying out a block where nothing is outstanding leaves a recorded block as it was. */
  lemma OtherBlockStays(c: Config, m: seq<Byte>, live: map<nat, nat>, recs: Table, raw: nat, total: nat, h: Header,
                        q: nat)
    requires LiveOk(live, |m|) && BlocksOk(c, m, live, recs) && q in recs
    requires CanGive(live, |m|, raw, total) && InBounds(m, raw, h, FooterSize(c))
    requires raw + h.userOffset + h.requested + FooterSize(c) < raw + total
    ensures var m' := Initialised(m, raw, h, FooterSize(c));
      BlockOk(c, m', live[raw := total], q, recs[q]) && Intact(c, m', recs[q]) == Intact(c, m, recs[q])
    ensures recs[q].rawPtr != raw && q != raw + h.userOffset
  {
    hide Initialised, Framed, Armed, HeaderOf, TrueTotal, Intact;
    assert BlockOk(c, m, live, q, recs[q]);
    InitialisedSameOn(m, raw, h, FooterSize(c), recs[q].rawPtr, recs[q].total);
    BlockKept(c, m, Initialised(m, raw, h, FooterSize(c)), live, live[raw := total], q, recs[q]);
  }

  /** A table grows by a record whose block starts at no other record's block. */
  lemma WithBlock(c: Config, m: seq<Byte>, m': seq<Byte>, live: map<nat, nat>, live': map<nat, nat>, recs: Table,
                  r: Record)
    requires BlocksOk(c, m, live, recs) && BlockOk(c, m', live', r.userPtr, r)
    requires forall q :: q in recs ==> BlockOk(c, m', live', q, recs[q]) && recs[q].rawPtr != r.rawPtr
    ensures BlocksOk(c, m', live', recs[r.userPtr := r])
  {
    hide BlockOk;
  }

  lemma {:induction false} KeysBelow(s: set<nat>, n: nat)
    requires forall p :: p in s ==> p < n
    ensures |s| <= n
  {
    if n > 0 { KeysBelow(s - {n - 1}, n - 1); }
  }

  /** The counters of a good heap are below 2^64, so their arithmetic does not wrap. */
  lemma CountsBelow(c: Config, m: seq<Byte>, live: map<nat, nat>, recs: Table)
    requires |m| < W64 && LiveOk(live, |m|) && BlocksOk(c, m, live, recs)
    ensures SumRequested(recs) < W64 && |recs| < W64
  {
    hide BlocksOk, LiveOk, SumRequested;
    PayloadsApart(c, m, live, recs);
    LiveInMemory(live, |m|);
    forall p | p in recs.Keys ensures p < |m| + 1 && p != 0 { UserInRange(c, m, live, recs, p); }
    KeysBelow(recs.Keys + {0}, |m| + 1);
  }

  lemma CountersGrow(counters: Counters, recs: Table, p: nat, r: Record)
    requires CountersOk(counters, recs) && p !in recs
    requires SumRequested(recs[p := r]) < W64 && |recs[p := r]| < W64
    ensures CountersOk(OnAlloc(counters, r.requested), recs[p := r])
  {
    hide Wrap, SumRequested;
    SumWith(recs, p, r);
    WrapSmall(counters.current + r.requested);
    WrapSmall(counters.active + 1);
  }

  lemma CountersShrink(counters: Counters, recs: Table, p: nat)
    requires CountersOk(counters, recs) && p in recs && SumRequested(recs) < W64 && |recs| < W64
    ensures CountersOk(OnFree(counters, recs[p].requested), recs - {p})
    ensures OnFree(counters, recs[p].requested).current == counters.current - recs[p].requested
    ensures OnFree(counters, recs[p].requested).active == counters.active - 1
  {
    hide Wrap, SumRequested;
    SumWithout(recs, p);
    OneLess(recs, p);
    WrapSmall(counters.current - recs[p].requested);
    WrapSmall(counters.active - 1);
  }

  // ---------- allocate

  predicate Aligned(p: nat, alignment: nat) { p % EffectiveAlignment(alignment) == 0 }

  /**
   The record of a tracked allocation of `size` bytes, placed at `env.choice`: its tag is the one asked
   for, else the scope's, else the default one.
   */
  ghost predicate Filled(c: Config, r: Record, p: nat, id: nat, size: nat, alignment: nat, tag: nat, env: Env) {
    && r.userPtr == p && r.rawPtr == env.choice && r.allocationId == id && r.requested == size
    && r.alignment == (if alignment > 16 then alignment else 16)
    && r.total == 68 + r.alignment + size + (if c.enableCanary then c.canaryFooterSize else 0)
    && r.threadId == env.threadId && r.frames == env.frames
    && (tag != 0 ==> r.tag == tag)
    && (tag == 0 && env.scopeTag != 0 ==> r.tag == env.scopeTag)
    && (tag == 0 && env.scopeTag == 0 ==> r.tag == c.defaultTag)
  }

  /** What a tracked allocation adds. */
  ghost predicate Added(c: Config, s: State, s': State, p: nat, id: nat, size: nat, alignment: nat, tag: nat, env: Env)
    requires Shaped(s.shards) && Shaped(s'.shards)
  {
    var before, after := Flat(s.shards), Flat(s'.shards);
    && p !in before && p in after && after == before[p := after[p]]
    && Filled(c, after[p], p, id, size, alignment, tag, env)
    && LaidOut(s.mem, s'.mem, env.choice, p, size, alignment, if c.enableCanary then c.canaryFooterSize else 0,
               id, after[p].tag, c.enableCanary, env.threadId)
    && after[p].rawPtr !in s.live && s'.live == s.live[after[p].rawPtr := after[p].total]
    && Intact(c, s'.mem, after[p])
    && (IsPowerOfTwo(alignment) ==> Aligned(p, alignment))
    && (forall q :: q in before ==> Intact(c, s'.mem, before[q]) == Intact(c, s.mem, before[q]))
    && s'.counters == OnAlloc(s.counters, size)
    && OthersUnchanged(s, s')
  }

  /** Every outstanding block is still outstanding with the same bytes. */
  ghost predicate OthersUnchanged(s: State, s': State) {
    && |s'.mem| == |s.mem|
    && forall r :: r in s.live ==> r in s'.live && s'.live[r] == s.live[r] && SameOn(s.mem, s'.mem, r, s.live[r])
  }

  lemma AllocateTrackedKeeps(c: Config, s: State, id: nat, size: nat, alignment: nat, tag: nat, env: Env)
    requires HeapInv(c, s) && Sane(c, size, alignment, tag, env) && id < W64
    ensures var (s', p) := AllocateTracked(c, s, id, size, alignment, tag, env);
      && HeapInv(c, s')
      && (p == 0 ==> s' == s)
      && (p != 0 ==> Added(c, s, s', p, id, size, alignment, tag, env))
  {
    hide AllocateTracked, HeapInv, Intact, Flat, UserAddress, EffectiveAlignment, OnAlloc, OthersUnchanged,
      HeaderOf, Insert, CanGive, InBounds, IsPowerOfTwo, TrackerSpec.Valid, ShardIndex, Initialised, Aligned,
      Added, BlocksOk, CountersOk, LiveOk, Sane, Filled, LaidOut;
    UnfoldInv(c, s);
    var (s', p) := AllocateTracked(c, s, id, size, alignment, tag, env);
    if p == 0 {
      FailedAllocation(c, s, id, size, alignment, tag, env);
    } else {
      var total, raw, h, r := Unfolded(c, s, id, size, alignment, tag, env);
      PlacedInHeap(c, s, s', total, raw, h, r);
      if IsPowerOfTwo(alignment) { PlacedAligned(raw, alignment); }
      PlacedIsAdded(c, s, s', id, size, alignment, tag, env, r);
    }
  }

  lemma PlacedIsAdded(c: Config, s: State, s': State, id: nat, size: nat, alignment: nat, tag: nat, env: Env,
                      r: Record)
    requires Shaped(s.shards) && Shaped(s'.shards)
    requires var recs := Flat(s.shards);
      && r.userPtr !in recs && Flat(s'.shards) == recs[r.userPtr := r] && Intact(c, s'.mem, r)
      && forall q :: q in recs ==> Intact(c, s'.mem, recs[q]) == Intact(c, s.mem, recs[q])
    requires Filled(c, r, r.userPtr, id, size, alignment, tag, env)
    requires LaidOut(s.mem, s'.mem, env.choice, r.userPtr, size, alignment,
                     if c.enableCanary then c.canaryFooterSize else 0, id, r.tag, c.enableCanary, env.threadId)
    requires r.rawPtr !in s.live && s'.live == s.live[r.rawPtr := r.total]
    requires IsPowerOfTwo(alignment) ==> Aligned(r.userPtr, alignment)
    requires s'.counters == OnAlloc(s.counters, size) && OthersUnchanged(s, s')
    ensures Added(c, s, s', r.userPtr, id, size, alignment, tag, env)
  {
    hide Flat, Intact, IsPowerOfTwo, Aligned, OnAlloc, OthersUnchanged, EffectiveAlignment, Filled, LaidOut;
  }

  lemma FailedAllocation(c: Config, s: State, id: nat, size: nat, alignment: nat, tag: nat, env: Env)
    requires HeapInv(c, s) && Sane(c, size, alignment, tag, env)
    requires AllocateTracked(c, s, id, size, alignment, tag, env).1 == 0
    ensures AllocateTracked(c, s, id, size, alignment, tag, env).0 == s
  {
    hide UserAddress, CalculateTotalSize, Initialised, Insert;
  }

  /** The parts of a successful tracked allocation. */
  lemma Unfolded(c: Config, s: State, id: nat, size: nat, alignment: nat, tag: nat, env: Env)
    returns (total: nat, raw: nat, h: Header, r: Record)
    requires HeapInv(c, s) && Sane(c, size, alignment, tag, env) && id < W64
    requires AllocateTracked(c, s, id, size, alignment, tag, env).1 != 0
    ensures var (s', p) := AllocateTracked(c, s, id, size, alignment, tag, env);
      && CanGive(s.live, |s.mem|, raw, total) && Fitting(c, s.mem, raw, total, h, r)
      && p == r.userPtr == UserAddress(raw, EffectiveAlignment(alignment))
      && r.requested == size && Filled(c, r, p, id, size, alignment, tag, env)
      && LaidOut(s.mem, s'.mem, env.choice, p, size, alignment, if c.enableCanary then c.canaryFooterSize else 0,
                 id, r.tag, c.enableCanary, env.threadId)
      && raw + MaxOffset(alignment) <= W64
      && s'.mem == Initialised(s.mem, raw, h, FooterSize(c)) && s'.live == s.live[raw := total]
      && s'.counters == OnAlloc(s.counters, size) && s'.shards == Insert(s.shards, p, r)
  {
    hide UserAddress, Flat, ShardIndex, HeapInv, Initialised, CalculateTotalSize, Wrap, HeaderOf, OnAlloc, Insert,
      LaidOut;
    assert |s.mem| < W64 && Shaped(s.shards) by { UnfoldInv(c, s); }
    total := CalculateTotalSize(size, EffectiveAlignment(alignment), FooterSize(c));
    raw := MallocResult(s.live, |s.mem|, total, env.choice);
    Placed(c, s.mem, s.live, raw, id, size, alignment, tag, env);
    InitialisedReads(s.mem, raw, size, EffectiveAlignment(alignment), FooterSize(c), id, FinalTag(c, tag, env),
                     c.enableCanary, env.threadId);
    h := NewHeader(c, raw, id, size, alignment, tag, env);
    r := NewRecord(h, FinalTag(c, tag, env), raw, total, env.frames);
    LaidOutOnceAligned(c, s.mem, Initialised(s.mem, raw, h, FooterSize(c)), raw, r.userPtr, size, alignment, id, r.tag,
                       env.threadId);
  }

  /** Asking for the effective alignment is asking for the alignment. */
  lemma LaidOutOnceAligned(c: Config, m: seq<Byte>, m': seq<Byte>, raw: nat, user: nat, size: nat, alignment: nat,
                           id: nat, tag: nat, threadId: nat)
    requires LaidOut(m, m', raw, user, size, EffectiveAlignment(alignment), FooterSize(c), id, tag, c.enableCanary,
                     threadId)
    ensures LaidOut(m, m', raw, user, size, alignment, if c.enableCanary then c.canaryFooterSize else 0, id, tag,
                    c.enableCanary, threadId)
  {
    hide MagicByte;
  }

  lemma UnfoldInv(c: Config, s: State)
    requires HeapInv(c, s)
    ensures |s.mem| < W64 && TrackerSpec.Valid(s.shards) && LiveOk(s.live, |s.mem|)
    ensures BlocksOk(c, s.mem, s.live, Flat(s.shards)) && CountersOk(s.counters, Flat(s.shards))
  {
  }

  lemma PlacedInHeap(c: Config, s: State, s': State, total: nat, raw: nat, h: Header, r: Record)
    requires HeapInv(c, s) && CanGive(s.live, |s.mem|, raw, total) && Fitting(c, s.mem, raw, total, h, r)
    requires s'.mem == Initialised(s.mem, raw, h, FooterSize(c)) && s'.live == s.live[raw := total]
    requires s'.counters == OnAlloc(s.counters, r.requested) && s'.shards == Insert(s.shards, r.userPtr, r)
    ensures HeapInv(c, s') && OthersUnchanged(s, s') && raw !in s.live
    ensures var recs := Flat(s.shards);
      && r.userPtr !in recs && Flat(s'.shards) == recs[r.userPtr := r] && Intact(c, s'.mem, r)
      && forall q :: q in recs ==> Intact(c, s'.mem, recs[q]) == Intact(c, s.mem, recs[q])
  {
    hide Flat, ShardIndex, ShardValid, Initialised, Intact, Insert, OnAlloc, HeaderOf, BlocksOk;
    var recs := Flat(s.shards);
    AddBlock(c, s.mem, s.live, recs, raw, total, h, r);
    InsertRefines(s.shards, r.userPtr, r);
    CountsBelow(c, s'.mem, s'.live, recs[r.userPtr := r]);
    CountersGrow(s.counters, recs, r.userPtr, r);
    forall q | q in s.live ensures SameOn(s.mem, s'.mem, q, s.live[q]) {
      InitialisedSameOn(s.mem, raw, h, FooterSize(c), q, s.live[q]);
    }
  }

  // ---------- plain system calls

  /** No record's block starts at `r`. */
  ghost predicate Untracked(s: State, r: nat)
    requires Shaped(s.shards)
  {
    forall p :: p in Flat(s.shards) ==> Flat(s.shards)[p].rawPtr != r
  }

  /** Changing the outstanding blocks that no record describes keeps every record's block. */
  lemma LiveChange(c: Config, m: seq<Byte>, live: map<nat, nat>, live': map<nat, nat>, recs: Table)
    requires BlocksOk(c, m, live, recs)
    requires forall p :: p in recs ==> recs[p].rawPtr in live' && live'[recs[p].rawPtr] == live[recs[p].rawPtr]
    ensures BlocksOk(c, m, live', recs)
  {
    hide Framed, HeaderOf;
  }

  lemma RawAllocKeeps(c: Config, s: State, size: nat, choice: nat)
    requires HeapInv(c, s)
    ensures var (s', p) := RawAlloc(s, size, choice);
      && HeapInv(c, s') && OthersUnchanged(s, s')
      && (p == 0 ==> s' == s)
      && (p != 0 ==> p == choice && p !in s.live && s' == s.(live := s.live[p := size]) && Untracked(s', p))
  {
    hide Flat, ShardIndex, ShardValid, BlocksOk, CountersOk, LiveOk, CanGive;
    var (s', p) := RawAlloc(s, size, choice);
    LiveInMemory(s.live, |s.mem|);
    if p != 0 {
      MallocKeeps(s.live, |s.mem|, size, choice);
      RawsAreLive(c, s.mem, s.live, Flat(s.shards));
      LiveChange(c, s.mem, s.live, s'.live, Flat(s.shards));
    }
  }

  lemma LiveInMemory(live: map<nat, nat>, limit: nat)
    requires LiveOk(live, limit)
    ensures forall r :: r in live ==> r != 0 && r + live[r] <= limit
  {
  }

  lemma RawsAreLive(c: Config, m: seq<Byte>, live: map<nat, nat>, recs: Table)
    requires BlocksOk(c, m, live, recs)
    ensures forall p :: p in recs ==> recs[p].rawPtr in live
  {
    hide Framed, HeaderOf;
  }

  lemma RawFreeKeeps(c: Config, s: State, p: nat)
    requires HeapInv(c, s) && Untracked(s, p)
    ensures HeapInv(c, RawFree(s, p))
  {
    hide Flat, ShardIndex, ShardValid, BlocksOk, CountersOk;
    RawsAreLive(c, s.mem, s.live, Flat(s.shards));
    LiveChange(c, s.mem, s.live, s.live - {p}, Flat(s.shards));
  }

  // ---------- deallocate

  /** Dropping one record and poisoning its block keeps all the others. */
  lemma DropBlock(c: Config, m: seq<Byte>, live: map<nat, nat>, recs: Table, p: nat)
    requires LiveOk(live, |m|) && BlocksOk(c, m, live, recs) && p in recs
    ensures Poisonable(m, recs[p].rawPtr, FooterSize(c))
    ensures var m' := Poisoned(m, recs[p].rawPtr, FooterSize(c)); var live' := live - {recs[p].rawPtr};
      && LiveOk(live', |m|)
      && BlocksOk(c, m', live', recs - {p})
      && (forall q :: q in recs - {p} ==> Intact(c, m', recs[q]) == Intact(c, m, recs[q]))
      && forall r :: r in live' ==> SameOn(m, m', r, live[r])
  {
    hide Poisoned, HeaderOf, Armed, Framed, Intact, TrueTotal, BlockOk;
    var r := recs[p];
    assert BlockOk(c, m, live, p, r);
    PoisonedSameOn(c, m, live, p, r);
    var m' := Poisoned(m, r.rawPtr, FooterSize(c));
    var live' := live - {r.rawPtr};
    forall q | q in recs - {p}
      ensures BlockOk(c, m', live', q, recs[q]) && Intact(c, m', recs[q]) == Intact(c, m, recs[q])
    {
      RangeOfBlock(c, m, live, q, recs[q]);
      BlockKept(c, m, m', live, live', q, recs[q]);
    }
  }

  lemma RangeOfBlock(c: Config, m: seq<Byte>, live: map<nat, nat>, p: nat, r: Record)
    requires BlockOk(c, m, live, p, r)
    ensures r.rawPtr in live && live[r.rawPtr] == r.total
  {
  }

  lemma PoisonedSameOn(c: Config, m: seq<Byte>, live: map<nat, nat>, p: nat, r: Record)
    requires LiveOk(live, |m|) && BlockOk(c, m, live, p, r)
    ensures Poisonable(m, r.rawPtr, FooterSize(c))
    ensures forall q :: q in live && q != r.rawPtr ==> SameOn(m, Poisoned(m, r.rawPtr, FooterSize(c)), q, live[q])
  {
    hide Poisoned, HeaderBytes, LeBytes;
    FramedReads(m, r.rawPtr, HeaderOf(c, r), FooterSize(c));
    forall q | q in live && q != r.rawPtr ensures SameOn(m, Poisoned(m, r.rawPtr, FooterSize(c)), q, live[q]) {
      forall i | q <= i < q + live[q] ensures Poisoned(m, r.rawPtr, FooterSize(c))[i] == m[i] {
        PoisonedFrame(m, r.rawPtr, HeaderOf(c, r), FooterSize(c), i);
      }
    }
  }

  /** Dropping a record but keeping its damaged block outstanding. */
  lemma DropRecord(c: Config, m: seq<Byte>, live: map<nat, nat>, recs: Table, p: nat)
    requires BlocksOk(c, m, live, recs) && p in recs
    ensures BlocksOk(c, m, live, recs - {p})
  {
    hide Framed, HeaderOf;
  }

  /**
   What freeing leaves of a block: the freed magic, neither offset field nor back-offset, the freed
   pattern all over the red zone, and every other byte as it was.
   */
  ghost predicate MarkedFreed(c: Config, m: seq<Byte>, m': seq<Byte>, r: Record) {
    var raw, user, start := r.rawPtr, r.userPtr, r.userPtr + r.requested;
    var footer := if c.enableCanary then c.canaryFooterSize else 0;
    && |m'| == |m| && raw + 68 <= user && start + footer <= |m|
    && Word(m', raw, 8) == FREED_MAGIC && Word(m', raw + 32, 8) == 0 && Word(m', user - 4, 4) == 0
    && (footer >= 8 ==> forall i :: start <= i < start + footer ==> m'[i] == MagicByte(FREED_MAGIC, i - start))
    && (forall i :: 0 <= i < |m| ==>
          raw <= i < raw + 8 || raw + 32 <= i < raw + 40 || user - 4 <= i < user
          || (footer >= 8 && start <= i < start + footer) || m'[i] == m[i])
    && Checkable(m', raw, footer) && Verdict(m', raw, footer) == DoubleFree
    && (user >= MAX_LINK ==> BackLink(m', user).None?)
  }

  lemma PoisonMarks(c: Config, m: seq<Byte>, live: map<nat, nat>, p: nat, r: Record)
    requires BlockOk(c, m, live, p, r)
    ensures Poisonable(m, r.rawPtr, FooterSize(c))
    ensures MarkedFreed(c, m, Poisoned(m, r.rawPtr, FooterSize(c)), r)
  {
    hide Verdict, HeaderBytes, LeBytes, LeValue, MagicByte, BackLink, Pattern, TrueTotal, Stamped, Word,
      AfterPoison, Shows;
    var h := HeaderOf(c, r);
    FramedReads(m, r.rawPtr, h, FooterSize(c));
    PoisonedIsRecognised(m, r.rawPtr, h, FooterSize(c));
    StampedReads(m, r.rawPtr, h, FooterSize(c), FREED_MAGIC);
    forall i | 0 <= i < |m| ensures Poisoned(m, r.rawPtr, FooterSize(c))[i] == AfterPoison(c, m, r, i) {
      PoisonedByteOf(c, m, live, p, r, i);
    }
    BytesAreMarks(c, m, Poisoned(m, r.rawPtr, FooterSize(c)), r);
  }

  lemma PoisonedByteOf(c: Config, m: seq<Byte>, live: map<nat, nat>, p: nat, r: Record, i: nat)
    requires BlockOk(c, m, live, p, r) && i < |m|
    ensures Poisonable(m, r.rawPtr, FooterSize(c))
    ensures Poisoned(m, r.rawPtr, FooterSize(c))[i] == AfterPoison(c, m, r, i)
  {
    hide HeaderBytes, LeBytes, LeValue, Poisoned, MagicByte, Pattern, TrueTotal, Word;
    FramedReads(m, r.rawPtr, HeaderOf(c, r), FooterSize(c));
    PoisonedBytes(m, r.rawPtr, FooterSize(c), i);
  }

  lemma BytesAreMarks(c: Config, m: seq<Byte>, m': seq<Byte>, r: Record)
    requires |m'| == |m| && r.rawPtr + 68 <= r.userPtr && r.userPtr + r.requested + FooterSize(c) <= |m|
    requires forall i :: 0 <= i < |m| ==> m'[i] == AfterPoison(c, m, r, i)
    requires Word(m', r.rawPtr, 8) == FREED_MAGIC && Word(m', r.rawPtr + 32, 8) == 0
    requires Word(m', r.userPtr - 4, 4) == 0
    requires Checkable(m', r.rawPtr, FooterSize(c)) && Verdict(m', r.rawPtr, FooterSize(c)) == DoubleFree
    requires r.userPtr >= MAX_LINK ==> BackLink(m', r.userPtr).None?
    ensures MarkedFreed(c, m, m', r)
  {
    hide MagicByte, Word, Verdict, BackLink, Checkable;
  }

  /** Byte `i` after the block of `r` was poisoned. */
  function AfterPoison(c: Config, m: seq<Byte>, r: Record, i: nat): Byte
    requires i < |m|
  {
    var start := r.userPtr + r.requested;
    if r.rawPtr <= i < r.rawPtr + 8 then MagicByte(FREED_MAGIC, i - r.rawPtr)
    else if r.rawPtr + 32 <= i < r.rawPtr + 40 || r.userPtr - 4 <= i < r.userPtr then 0
    else if FooterSize(c) >= 8 && start <= i < start + FooterSize(c) then MagicByte(FREED_MAGIC, i - start)
    else m[i]
  }

  /** The verdict on a record's block is whether it is intact. */
  lemma VerdictOnRecord(c: Config, m: seq<Byte>, live: map<nat, nat>, p: nat, r: Record)
    requires BlockOk(c, m, live, p, r)
    ensures Poisonable(m, r.rawPtr, FooterSize(c))
    ensures Verdict(m, r.rawPtr, FooterSize(c)) == NoCorruption <==> Intact(c, m, r)
  {
    hide Verdict, HeaderBytes, LeBytes, Armed;
    FramedReads(m, r.rawPtr, HeaderOf(c, r), FooterSize(c));
    VerdictIsExact(m, r.rawPtr, HeaderOf(c, r), FooterSize(c));
  }
}
