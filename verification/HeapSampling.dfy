/**
 Sampling over whole runs of the heap: which of a run's allocations are tracked, whatever their sizes
 and whatever else the run does in between.
 */
module HeapSampling {
  import opened Words
  import opened Block
  import opened TrackerSpec
  import opened Stats
  import opened Sampling
  import opened SystemHeap
  import opened ManagerSpec
  import opened BlockBytes
  import opened HeapInvariant
  import opened HeapCalls
  import opened HeapSafety

  /** The size that an operation asks the sampler about, if it gets that far. */
  ghost function AskedSize(s: State, op: Op): seq<nat>
    requires Shaped(s.shards)
  {
    if !Tracking(s) then [] else
    match op
    case AllocOp(size, _, _, _) => [size]
    case ReallocOp(p, n, _) => if p == 0 || (n != 0 && p in Flat(s.shards)) then [n] else []
    case _ => []
  }

  function EnvOf(op: Op): Env
    requires op.AllocOp? || op.ReallocOp?
  {
    op.env
  }

  /** What comes to the sampling decision when `op` happens in `s`. */
  ghost function AskedBy(s: State, op: Op): seq<Asked>
    requires Shaped(s.shards)
  {
    if AskedSize(s, op) == [] then [] else
    [Asked(s.nextId, AskedSize(s, op)[0], s.countdown, EnvOf(op).firstDraw, EnvOf(op).nextDraw)]
  }

  /** What comes to the sampling decision in a run. */
  ghost function AskedIn(c: Config, s: State, ops: seq<Op>): seq<Asked>
    requires Safe(c, s)
    decreases |ops|
  {
    if ops == [] || !Allowed(c, s, ops[0]) then [] else
    StepIsSafe(c, s, ops[0]);
    AskedBy(s, ops[0]) + AskedIn(c, Step(c, s, ops[0]), ops[1..])
  }

  lemma FreeDraws(c: Config, s: State, p: nat)
    requires TrackerSpec.Valid(s.shards) && CanCheck(c, s, p)
    ensures var s' := Deallocate(c, s, p); s'.nextId == s.nextId && s'.countdown == s.countdown
  {
    hide Flat, ShardValid, Erase, StatusOf, BackLink, Verdict, Poisoned, OnFree, Poisonable;
    EraseRefines(s.shards, p);
    FlatLookup(s.shards, p);
  }

  lemma MoveDraws(c: Config, s: State, p: nat, n: nat, env: Env)
    requires Good(c, s) && Tracking(s) && p in Flat(s.shards) && n < W64 && EnvOk(c, env)
    ensures var s' := ReallocateTracked(c, s, p, n, env).0;
      && s'.nextId == Wrap(s.nextId + 1)
      && s'.countdown == Decide(c, s.nextId, n, s.countdown, env.firstDraw, env.nextDraw).1
  {
    hide Flat, HeapInv, ShardValid, BlocksOk, LiveOk, CountersOk, Allocate, Deallocate, Decide, Wrap, Sane, Grown,
      OldReport, EnvOk, Put, CanCheck;
    UnfoldInv(c, s);
    GrownIsAllocate(c, s, p, n, env);
    var r := Flat(s.shards)[p];
    AllocationDrawsOneId(c, s.(log := s.log + OldReport(c, s, p)), n, r.alignment, r.tag, env);
    CopiedKeeps(c, s, p, n, env);
    var (k, q) := Copied(c, s, p, n, env);
    if q != 0 {
      UnfoldInv(c, k);
      FreeDraws(c, k, p);
    }
  }

  lemma ReallocDraws(c: Config, s: State, p: nat, n: nat, env: Env)
    requires Safe(c, s) && MayRealloc(c, s, p, n, env)
    ensures Shaped(s.shards)
    ensures var s', asked := TrackRealloc(c, s, p, n, env).0, AskedSize(s, ReallocOp(p, n, env));
      && s'.nextId == (if asked == [] then s.nextId else Wrap(s.nextId + 1))
      && s'.countdown == (if asked == [] then s.countdown
                          else Decide(c, s.nextId, n, s.countdown, env.firstDraw, env.nextDraw).1)
  {
    hide Flat, HeapInv, ShardValid, BlocksOk, LiveOk, CountersOk, Allocate, Deallocate, Decide, Wrap, Sane, AllIntact,
      EnvOk, Put, CanGive, ReallocateTracked, Untracked, Freeable;
    UnfoldInv(c, s);
    ReallocReady(c, s, p, n, env);
    if Tracking(s) {
      if p == 0 {
        AllocationDrawsOneId(c, s, n, c.alignment, 0, env);
      } else if n == 0 {
        FreeDraws(c, s, p);
      } else if p in Flat(s.shards) {
        MoveDraws(c, s, p, n, env);
      }
    }
  }

  /** Each decision draws one id and leaves its countdown; nothing else touches either. */
  lemma StepDraws(c: Config, s: State, op: Op)
    requires Safe(c, s) && Allowed(c, s, op)
    ensures Shaped(s.shards)
    ensures var s', asked := Step(c, s, op), AskedBy(s, op);
      && s'.nextId == (if asked == [] then s.nextId else Wrap(s.nextId + 1))
      && s'.countdown == (if asked == [] then s.countdown else Left(c, asked[0]))
  {
    hide Flat, HeapInv, ShardValid, BlocksOk, LiveOk, CountersOk, Allocate, Deallocate, Decide, Wrap, Sane, AllIntact,
      TrackRealloc;
    UnfoldInv(c, s);
    match op
    case AllocOp(size, alignment, tag, env) => AllocationDrawsOneId(c, s, size, alignment, tag, env);
    case FreeOp(p) =>
      if !s.guarded {
        FreeKeeps(c, s, p);
        FreeDraws(c, s, p);
      }
    case ReallocOp(p, n, env) => ReallocDraws(c, s, p, n, env);
    case WriteOp(at, bytes) => OwnWriteKeeps(c, s, at, bytes);
    case ForeignOp(at, b) =>
    case GuardOp(on) =>
    case InitOp(on) =>
  }

  /** The ids of a run's decisions are consecutive, as long as the counter does not wrap. */
  lemma {:induction false} IdsAreConsecutive(c: Config, s: State, ops: seq<Op>, i: nat)
    requires Safe(c, s) && s.nextId + |AskedIn(c, s, ops)| < W64 && i < |AskedIn(c, s, ops)|
    ensures AskedIn(c, s, ops)[i].id == s.nextId + i
    decreases |ops|
  {
    hide Step, HeapInv, AllIntact, Allowed, AskedBy, Wrap;
    StepIsSafe(c, s, ops[0]);
    StepDraws(c, s, ops[0]);
    var first := AskedBy(s, ops[0]);
    OneAsked(s, ops[0]);
    if i >= |first| {
      WrapSmall(s.nextId + |first|);
      IdsAreConsecutive(c, Step(c, s, ops[0]), ops[1..], i - |first|);
    }
  }

  lemma OneAsked(s: State, op: Op)
    requires Shaped(s.shards)
    ensures |AskedBy(s, op)| <= 1
    ensures AskedBy(s, op) != [] ==> AskedBy(s, op)[0].id == s.nextId
  {
    hide Flat;
  }

  /**
   One-in-N tracking over a run: of its allocations, whatever their sizes and whatever happens between
   them, exactly those whose id is a multiple of N are tracked, between floor(K/N) and ceil(K/N) of K.
   */
  lemma RunIsSampledOneInN(c: Config, s: State, ops: seq<Op>)
    requires Safe(c, s) && c.samplingRateBytes == 0 && c.sampleEveryN > 1
    requires s.nextId + |AskedIn(c, s, ops)| < W64
    ensures var asked := AskedIn(c, s, ops); var k := |asked|;
      && (forall i :: 0 <= i < k ==>
            asked[i].id == s.nextId + i && (Picked(c, asked[i]) <==> (s.nextId + i) % c.sampleEveryN == 0))
      && k / c.sampleEveryN <= TrackedOf(c, asked) <= (k + c.sampleEveryN - 1) / c.sampleEveryN
  {
    hide AskedIn, Picked, TrackedOf, Safe, Left;
    var asked := AskedIn(c, s, ops);
    forall i | 0 <= i < |asked| ensures asked[i].id == s.nextId + i { IdsAreConsecutive(c, s, ops, i); }
    OneInNIsBalanced(c, asked);
  }

  /** What an allocation hands out has a record exactly if the sampler picked it. */
  lemma PickedIsRecorded(c: Config, s: State, size: nat, alignment: nat, tag: nat, env: Env)
    requires Good(c, s) && Tracking(s) && Sane(c, size, alignment, tag, env)
    requires Allocate(c, s, size, alignment, tag, env).1 != 0
    ensures var (s', p) := Allocate(c, s, size, alignment, tag, env);
      && Shaped(s'.shards)
      && (p in Flat(s'.shards) <==>
            Picked(c, Asked(s.nextId, size, s.countdown, env.firstDraw, env.nextDraw)))
  {
    hide Flat, HeapInv, ShardValid, BlocksOk, LiveOk, CountersOk, Allocate, Decide, Sane, Untracked, Filled, LaidOut,
      Intact, OthersUnchanged, OnAlloc;
    UnfoldInv(c, s);
    AllocateKeeps(c, s, size, alignment, tag, env);
    var (s', p) := Allocate(c, s, size, alignment, tag, env);
    UnfoldInv(c, s');
    if !GetsTracked(c, s, size, env) { PlainIsNotTracked(c, s', p); }
  }
}
