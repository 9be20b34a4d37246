/**
 Fully tracked runs: no block is ever lost, and only a real second free is ever reported.
 */
module HeapConservation {
  import opened Words
  import opened Layout
  import opened Block
  import opened TrackerSpec
  import opened Stats
  import opened Sampling
  import opened SystemHeap
  import opened ManagerSpec
  import opened HeapInvariant
  import opened HeapCalls
  import opened HeapSafety

  /** Every outstanding block belongs to a record. */
  ghost predicate Conserved(s: State)
    requires Shaped(s.shards)
  {
    forall r :: r in s.live ==> exists p :: p in Flat(s.shards) && Flat(s.shards)[p].rawPtr == r
  }

  lemma AllocConserves(c: Config, s: State, size: nat, alignment: nat, tag: nat, env: Env)
    requires Safe(c, s) && Sane(c, size, alignment, tag, env) && TracksAll(c) && Tracking(s) && Conserved(s)
    ensures var s' := Allocate(c, s, size, alignment, tag, env).0; Safe(c, s') && Shaped(s'.shards) && Conserved(s')
  {
    hide BlocksOk, ShardValid, ShardIndex, CountersOk, LiveOk, Flat, Intact, Allocate, OthersUnchanged, OnAlloc,
      IsPowerOfTwo, HeapInv, AllIntact, Sane;
    UnfoldInv(c, s);
    AllocIsSafe(c, s, size, alignment, tag, env);
    AllocateKeeps(c, s, size, alignment, tag, env);
    var (s', p) := Allocate(c, s, size, alignment, tag, env);
    UnfoldInv(c, s');
    forall r | r in s'.live ensures exists x :: x in Flat(s'.shards) && Flat(s'.shards)[x].rawPtr == r {
      if r in s.live {
        var x :| x in Flat(s.shards) && Flat(s.shards)[x].rawPtr == r;
        assert x in Flat(s'.shards) && Flat(s'.shards)[x].rawPtr == r;
      } else {
        assert p in Flat(s'.shards) && Flat(s'.shards)[p].rawPtr == r;
      }
    }
  }

  lemma FreeConserves(c: Config, s: State, p: nat)
    requires Good(c, s) && AllIntact(c, s) && Freeable(s, p) && Conserved(s)
    ensures CanCheck(c, s, p)
    ensures var s' := Deallocate(c, s, p); Good(c, s') && Shaped(s'.shards) && Conserved(s')
  {
    hide BlocksOk, ShardValid, ShardIndex, CountersOk, LiveOk, Flat, Intact, OnFree, RestUnchanged, HeapInv,
      Quarantined, BackLink, Deallocate;
    UnfoldInv(c, s);
    FreeKeeps(c, s, p);
    var s' := Deallocate(c, s, p);
    UnfoldInv(c, s');
    forall r | r in s'.live ensures exists x :: x in Flat(s'.shards) && Flat(s'.shards)[x].rawPtr == r {
      var x :| x in Flat(s.shards) && Flat(s.shards)[x].rawPtr == r;
      assert x in Flat(s'.shards) && Flat(s'.shards)[x].rawPtr == r;
    }
  }

  /** Checking an intact block reports nothing. */
  lemma IntactIsNotReported(c: Config, s: State, p: nat)
    requires Good(c, s) && p in Flat(s.shards) && Intact(c, s.mem, Flat(s.shards)[p])
    ensures Checkable(s.mem, Flat(s.shards)[p].rawPtr, FooterSize(c)) && CheckOld(c, s, p, Flat(s.shards)[p]) == s
  {
    hide Flat, HeapInv, Verdict, Intact, CanCheck, BlockOk;
    assert Shaped(s.shards) by { UnfoldInv(c, s); }
    TrackedIsCheckable(c, s, p);
    SaneFree(c, s, p);
  }

  lemma MoveConserves(c: Config, s: State, p: nat, n: nat, env: Env)
    requires Safe(c, s) && p in Flat(s.shards) && n < W64 && EnvOk(c, env)
    requires TracksAll(c) && Tracking(s) && Conserved(s)
    ensures var s' := ReallocateTracked(c, s, p, n, env).0; Shaped(s'.shards) && Conserved(s')
  {
    hide BlocksOk, ShardValid, ShardIndex, CountersOk, LiveOk, Flat, Intact, HeapInv, Put, Untracked, OthersUnchanged,
      Deallocate, Allocate, CheckOld, Freed, IntactKept, Sane, CanCheck, EnvOk, TracksAll;
    UnfoldInv(c, s);
    var r := Flat(s.shards)[p];
    assert Intact(c, s.mem, r);
    SaneAgain(c, s, p, n, env);
    IntactIsNotReported(c, s, p);
    assert Grown(c, s, p, n, env) == Allocate(c, s, n, r.alignment, r.tag, env);
    AllocConserves(c, s, n, r.alignment, r.tag, env);
    CopyConserves(c, s, p, n, env);
    CopiedKeeps(c, s, p, n, env);
    FreeConserves(c, Copied(c, s, p, n, env).0, p);
  }

  /** Copying the payload leaves records, blocks and their state alone. */
  lemma CopyConserves(c: Config, s: State, p: nat, n: nat, env: Env)
    requires Good(c, s) && p in Flat(s.shards) && n < W64 && EnvOk(c, env)
    requires var g := Grown(c, s, p, n, env).0; Safe(c, g) && Conserved(g)
    ensures var k := Copied(c, s, p, n, env).0;
      && Good(c, k) && Shaped(k.shards) && AllIntact(c, k) && Conserved(k) && p in Flat(k.shards)
  {
    hide BlocksOk, ShardValid, ShardIndex, CountersOk, LiveOk, Flat, Intact, HeapInv, Put, Grown, CanCheck,
      EnvOk;
    UnfoldInv(c, s);
    UnfoldInv(c, Grown(c, s, p, n, env).0);
    CopiedKeeps(c, s, p, n, env);
    UnfoldInv(c, Copied(c, s, p, n, env).0);
  }

  lemma ReallocConserves(c: Config, s: State, p: nat, n: nat, env: Env)
    requires Safe(c, s) && MayRealloc(c, s, p, n, env)
    requires TracksAll(c) && Tracking(s) && Conserved(s)
    ensures var s' := TrackRealloc(c, s, p, n, env).0; Shaped(s'.shards) && Conserved(s')
  {
    hide BlocksOk, ShardValid, ShardIndex, CountersOk, LiveOk, Flat, Intact, HeapInv, Deallocate, Allocate,
      Freeable, Sane, CanCheck, EnvOk, TracksAll, RawRealloc, ReallocateTracked, AllIntact;
    UnfoldInv(c, s);
    ReallocReady(c, s, p, n, env);
    if p == 0 {
      AllocConserves(c, s, n, c.alignment, 0, env);
    } else if n == 0 {
      FreeConserves(c, s, p);
    } else if p in Flat(s.shards) {
      MoveConserves(c, s, p, n, env);
    }
  }

  lemma StepConserves(c: Config, s: State, op: Op)
    requires Safe(c, s) && Allowed(c, s, op) && !op.GuardOp? && !op.InitOp?
    requires TracksAll(c) && Tracking(s) && Conserved(s)
    ensures var s' := Step(c, s, op); Safe(c, s') && Tracking(s') && Conserved(s')
  {
    hide BlocksOk, ShardValid, ShardIndex, CountersOk, LiveOk, Flat, Intact, HeapInv, Deallocate, Allocate,
      Freeable, Sane, CanCheck, TracksAll, Put, MayRealloc, AllIntact, TrackRealloc;
    UnfoldInv(c, s);
    StepIsSafe(c, s, op);
    match op
    case AllocOp(size, alignment, tag, env) =>
      AllocConserves(c, s, size, alignment, tag, env);
      AllocateKeeps(c, s, size, alignment, tag, env);
    case FreeOp(p) =>
      FreeConserves(c, s, p);
      FreeKeeps(c, s, p);
    case ReallocOp(p, n, env) =>
      ReallocConserves(c, s, p, n, env);
      ReallocFlags(c, s, p, n, env);
    case WriteOp(at, bytes) => OwnWriteKeeps(c, s, at, bytes);
    case ForeignOp(at, b) =>
  }

  lemma ReallocFlags(c: Config, s: State, p: nat, n: nat, env: Env)
    requires Safe(c, s) && MayRealloc(c, s, p, n, env) && Tracking(s)
    ensures Tracking(TrackRealloc(c, s, p, n, env).0)
  {
    hide BlocksOk, ShardValid, ShardIndex, CountersOk, LiveOk, Flat, Intact, HeapInv, Deallocate, Allocate,
      Sane, CanCheck, EnvOk, Grown, Put, AllIntact, Added, OthersUnchanged, Freed, Untracked, CanGive;
    UnfoldInv(c, s);
    ReallocReady(c, s, p, n, env);
    if p == 0 {
      AllocateKeeps(c, s, n, c.alignment, 0, env);
    } else if n == 0 {
      FreeKeeps(c, s, p);
    } else if p in Flat(s.shards) {
      GrownKeeps(c, s, p, n, env);
      CopiedKeeps(c, s, p, n, env);
      FreeKeeps(c, Copied(c, s, p, n, env).0, p);
    }
  }

  predicate NoSwitches(ops: seq<Op>) {
    forall i :: 0 <= i < |ops| ==> !ops[i].GuardOp? && !ops[i].InitOp?
  }

  /**
   In a fully tracked run of a well-behaved client no block is ever lost: every outstanding block
   has a record, so the leak report is empty exactly when everything was given back.
   */
  lemma {:induction false} NothingIsLost(c: Config, s: State, ops: seq<Op>, s': State)
    requires Safe(c, s) && Leads(c, s, ops, s') && TracksAll(c) && NoSwitches(ops) && Tracking(s) && Conserved(s)
    ensures Safe(c, s') && Conserved(s')
    ensures s'.live == map[] <==> Flat(s'.shards) == map[]
    decreases |ops|
  {
    hide BlocksOk, ShardValid, ShardIndex, CountersOk, LiveOk, Flat, Intact, HeapInv, Step, Allowed, AllIntact;
    if ops == [] {
      UnfoldInv(c, s');
      RawsAreLive(c, s'.mem, s'.live, Flat(s'.shards));
    } else {
      UnfoldInv(c, s);
      StepConserves(c, s, ops[0]);
      NothingIsLost(c, Step(c, s, ops[0]), ops[1..], s');
    }
  }

  // ---------- only second frees are reported

  /** The address that an operation hands to the client; 0 if none. */
  ghost function Handed(c: Config, s: State, op: Op): nat
    requires Good(c, s) && Allowed(c, s, op)
  {
    hide HeapInv, Flat, Sane, EnvOk, MayRealloc, TrackerSpec.Valid, BlocksOk, LiveOk, CountersOk, Allocate,
      TrackRealloc, Freeable, ClientOwns, NobodysByte;
    UnfoldInv(c, s);
    match op
    case AllocOp(size, alignment, tag, env) => Allocate(c, s, size, alignment, tag, env).1
    case ReallocOp(p, n, env) => TrackRealloc(c, s, p, n, env).1
    case _ => 0
  }

  /** The addresses that the client gives up with an operation. */
  ghost function GivenUp(c: Config, s: State, op: Op): set<nat>
    requires Good(c, s) && Allowed(c, s, op)
  {
    hide Good, Allowed, Handed;
    match op
    case FreeOp(p) => {p} - {0}
    case ReallocOp(p, n, _) => if n == 0 || Handed(c, s, op) != 0 then {p} - {0} else {}
    case _ => {}
  }

  /** The addresses that the client has given up and not been handed since. */
  ghost function Gone(c: Config, s: State, op: Op, gone: set<nat>): set<nat>
    requires Good(c, s) && Allowed(c, s, op)
  {
    hide Good, Allowed, Handed, GivenUp;
    gone + GivenUp(c, s, op) - {Handed(c, s, op)}
  }

  /** Only addresses that are gone are in quarantine. */
  ghost predicate QuarantineIsGone(s: State, gone: set<nat>)
    requires Shaped(s.shards)
  {
    forall q :: Quarantined(s.shards, q) ==> q in gone
  }

  lemma AllocQuarantine(c: Config, s: State, size: nat, alignment: nat, tag: nat, env: Env)
    requires Good(c, s) && Sane(c, size, alignment, tag, env) && TracksAll(c) && Tracking(s)
    ensures var (s', p) := Allocate(c, s, size, alignment, tag, env);
      && Shaped(s'.shards)
      && (p == 0 ==> s'.shards == s.shards)
      && (p != 0 ==> forall q :: Quarantined(s'.shards, q) <==> Quarantined(s.shards, q) && q != p)
  {
    hide AllocateTracked, HeapInv, TrackerSpec.Valid, Quarantined, Sane, Insert, Initialised, OnAlloc, CanGive, Fitting,
      UserAddress, Wrap;
    assert |s.mem| < W64 && TrackerSpec.Valid(s.shards) by { UnfoldInv(c, s); }
    ValidIsShaped(s.shards);
    var counted := s.(nextId := Wrap(s.nextId + 1));
    OnlyHeapMatters(c, s, counted);
    var (s', p) := AllocateTracked(c, counted, s.nextId, size, alignment, tag, env);
    if p == 0 {
      FailedAllocation(c, counted, s.nextId, size, alignment, tag, env);
    } else {
      var total, raw, h, r := Unfolded(c, counted, s.nextId, size, alignment, tag, env);
      InsertRefines(s.shards, p, r);
    }
  }

  lemma ValidIsShaped(t: Shards)
    requires TrackerSpec.Valid(t)
    ensures Shaped(t)
  {
    hide ShardValid;
  }

  lemma FreeQuarantine(c: Config, s: State, p: nat)
    requires Good(c, s) && Freeable(s, p)
    ensures CanCheck(c, s, p)
    ensures var s' := Deallocate(c, s, p);
      Shaped(s'.shards) && forall q :: Quarantined(s'.shards, q) ==> Quarantined(s.shards, q) || (q == p && p != 0)
  {
    hide BlocksOk, ShardValid, ShardIndex, CountersOk, LiveOk, Flat, HeapInv, Deallocate, Quarantined, BackLink,
      Untracked, Intact, Freed, Erase, Verdict, Poisonable, Poisoned;
    UnfoldInv(c, s);
    FreeKeeps(c, s, p);
    if p in Flat(s.shards) {
      DeallocateIsRelease(c, s, p);
      EraseRefines(s.shards, p);
      FlatLookup(s.shards, p);
      forall q | Quarantined(Erase(s.shards, p), q) ensures Quarantined(s.shards, q) || q == p {
        EraseQuarantines(s.shards, p, q);
      }
    }
  }

  lemma MoveQuarantine(c: Config, s: State, p: nat, n: nat, env: Env)
    requires Safe(c, s) && p in Flat(s.shards) && n < W64 && EnvOk(c, env) && TracksAll(c) && Tracking(s)
    ensures var (s', q) := ReallocateTracked(c, s, p, n, env);
      && Shaped(s'.shards)
      && (q == 0 ==> s'.shards == s.shards)
      && (q != 0 ==> q != p && forall x :: Quarantined(s'.shards, x) ==> (Quarantined(s.shards, x) && x != q) || x == p)
  {
    hide BlocksOk, ShardValid, ShardIndex, CountersOk, LiveOk, Flat, Intact, HeapInv, Put, Untracked, OthersUnchanged,
      Deallocate, Allocate, CheckOld, Freed, IntactKept, Sane, CanCheck, EnvOk, TracksAll, Quarantined, ClientOwns;
    UnfoldInv(c, s);
    var r := Flat(s.shards)[p];
    assert Intact(c, s.mem, r);
    SaneAgain(c, s, p, n, env);
    IntactIsNotReported(c, s, p);
    assert Grown(c, s, p, n, env) == Allocate(c, s, n, r.alignment, r.tag, env);
    AllocQuarantine(c, s, n, r.alignment, r.tag, env);
    GrownIsOwned(c, s, p, n, env);
    CopiedKeeps(c, s, p, n, env);
    UnfoldInv(c, Copied(c, s, p, n, env).0);
    FreeQuarantine(c, Copied(c, s, p, n, env).0, p);
  }

  lemma StepQuarantine(c: Config, s: State, op: Op, gone: set<nat>)
    requires Safe(c, s) && Allowed(c, s, op) && !op.GuardOp? && !op.InitOp?
    requires TracksAll(c) && Tracking(s) && Conserved(s) && QuarantineIsGone(s, gone)
    ensures var s' := Step(c, s, op); Shaped(s'.shards) && QuarantineIsGone(s', Gone(c, s, op, gone))
  {
    hide BlocksOk, ShardValid, ShardIndex, CountersOk, LiveOk, Flat, Intact, HeapInv, Deallocate, Allocate, Freeable,
      Sane, CanCheck, TracksAll, Put, AllIntact, RawRealloc, ReallocateTracked, EnvOk, Quarantined;
    UnfoldInv(c, s);
    NullIsNotQuarantined(s);
    match op
    case AllocOp(size, alignment, tag, env) => AllocQuarantine(c, s, size, alignment, tag, env);
    case FreeOp(p) =>
      FreeQuarantine(c, s, p);
      NullIsNotQuarantined(Deallocate(c, s, p));
    case ReallocOp(p, n, env) =>
      ReallocReady(c, s, p, n, env);
      if p == 0 {
        AllocQuarantine(c, s, n, c.alignment, 0, env);
      } else if n == 0 {
        FreeQuarantine(c, s, p);
        NullIsNotQuarantined(Deallocate(c, s, p));
      } else if p in Flat(s.shards) {
        MoveQuarantine(c, s, p, n, env);
      }
    case WriteOp(at, bytes) =>
      OwnWriteKeeps(c, s, at, bytes);
    case ForeignOp(at, b) =>
  }

  lemma NullIsNotQuarantined(s: State)
    requires Shaped(s.shards)
    ensures !Quarantined(s.shards, 0)
  {
  }

  /** Whatever this run has to report is the free of an address that is gone. */
  ghost predicate OnlySecondFrees(c: Config, s: State, ops: seq<Op>, gone: set<nat>)
    requires Safe(c, s)
    decreases |ops|
  {
    ops == [] || !Allowed(c, s, ops[0]) ||
    (StepIsSafe(c, s, ops[0]);
     && (Refused(s, ops[0]) != [] ==> Returned(s, ops[0]) in gone)
     && OnlySecondFrees(c, Step(c, s, ops[0]), ops[1..], Gone(c, s, ops[0], gone)))
  }

  /** A client that never frees an address that is gone. */
  ghost predicate Disciplined(c: Config, s: State, ops: seq<Op>, gone: set<nat>)
    requires Safe(c, s)
    decreases |ops|
  {
    ops == [] || !Allowed(c, s, ops[0]) ||
    (StepIsSafe(c, s, ops[0]);
     && Returned(s, ops[0]) !in gone
     && Disciplined(c, Step(c, s, ops[0]), ops[1..], Gone(c, s, ops[0], gone)))
  }

  lemma {:induction false} SecondFreesOnly(c: Config, s: State, ops: seq<Op>, s': State, gone: set<nat>)
    requires Safe(c, s) && Leads(c, s, ops, s') && TracksAll(c) && NoSwitches(ops) && Tracking(s) && Conserved(s)
    requires QuarantineIsGone(s, gone)
    ensures OnlySecondFrees(c, s, ops, gone)
    ensures Disciplined(c, s, ops, gone) ==> Expected(c, s, ops) == []
    decreases |ops|
  {
    hide BlocksOk, ShardValid, ShardIndex, CountersOk, LiveOk, Flat, Intact, HeapInv, Step, Allowed, AllIntact,
      Quarantined, Gone, Returned;
    if ops != [] {
      UnfoldInv(c, s);
      StepConserves(c, s, ops[0]);
      StepQuarantine(c, s, ops[0], gone);
      SecondFreesOnly(c, Step(c, s, ops[0]), ops[1..], s', Gone(c, s, ops[0], gone));
    }
  }

  /**
   From the start, with every allocation tracked: only frees of addresses given up before and not
   handed out since are reported, and a client that makes none gets no corruption report at all.
   */
  lemma OnlyRealDoubleFreesAreReported(c: Config, mem: seq<Byte>, ops: seq<Op>, s': State)
    requires |mem| < W64 && TracksAll(c) && NoSwitches(ops)
    requires Safe(c, Start(mem).(initialised := true)) && Leads(c, Start(mem).(initialised := true), ops, s')
    ensures var s := Start(mem).(initialised := true);
      && OnlySecondFrees(c, s, ops, {}) && Corruptions(s'.log) == Expected(c, s, ops)
      && (Disciplined(c, s, ops, {}) ==> Corruptions(s'.log) == [])
  {
    hide Good, AllIntact, Leads, Expected, OnlySecondFrees, Disciplined, Flat, Empty;
    EmptyIsValid();
    var s := Start(mem).(initialised := true);
    NothingQuarantined(s);
    RunsAreSafe(c, s, ops, s');
    SecondFreesOnly(c, s, ops, s', {});
  }

  lemma NothingQuarantined(s: State)
    requires s.shards == Empty()
    ensures QuarantineIsGone(s, {})
  {
    hide ShardIndex;
  }
}
