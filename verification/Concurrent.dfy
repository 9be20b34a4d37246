/**
 Threads allocating and freeing at once. Each atomic operation of `allocate`, `deallocate`,
 `update_on_alloc` and `update_on_free` is one step, and the steps of different threads interleave in
 any order. Whether a drawn allocation is sampled is an arbitrary choice, so tracked and plain blocks
 mix freely. A reallocation is an allocation followed by a free.
 */
module Concurrent {
  import opened Words
  import opened Wrappers
  import opened Layout
  import opened Records
  import opened TrackerSpec
  import opened Stats
  import opened Sampling
  import opened SystemHeap
  import opened ManagerSpec

  /** What an allocation was asked for. */
  datatype Request = Request(size: nat, alignment: nat, tag: nat, env: Env)

  /**
   Where a thread is. In the peak loop `seen` is the value it last read, `at` the number of raises
   made by then and `start` by its first read, and `failures` counts exchanges lost to a changed peak.
   A thread at `Unknown` is about to hand a pointer to the system's `free`.
   */
  datatype Pc =
    | Idle
    | Drawn(id: nat, q: Request)
    | Placed(r: Record)
    | TotalAdded(r: Record)
    | CountAdded(r: Record)
    | ActiveAdded(r: Record)
    | CurrentAdded(r: Record, mine: nat)
    | PeakLoaded(r: Record, mine: nat, seen: nat, at: nat, start: nat, failures: nat)
    | Counted(r: Record, mine: nat)
    | Erased(r: Record)
    | Checked(r: Record, intact: bool)
    | FreedAdded(r: Record, intact: bool)
    | FreesAdded(r: Record, intact: bool)
    | ActiveTaken(r: Record, intact: bool)
    | CurrentTaken(r: Record, intact: bool)
    | Unknown(p: nat)

  datatype Raise = Raise(thread: nat, to: nat)

  /** A record of what happened; no step reads it. */
  datatype Past = Past(
    high: nat, raises: seq<Raise>, completed: nat,
    mallocs: multiset<nat>, releases: multiset<nat>, retained: set<nat>, drawn: nat, retired: set<nat>)

  /** `plain` are the outstanding blocks that were handed out without tracking. */
  datatype World = World(
    shards: Shards, live: map<nat, nat>, plain: set<nat>, counters: Counters, nextId: nat, threads: seq<Pc>, past: Past)

  datatype Act =
    | AllocAct(q: Request)
    | MallocAct(choice: nat)
    | PlainAct(size: nat, choice: nat)
    | FreeAct(p: nat)
    | GuardedFreeAct(p: nat)
    | CheckAct(intact: bool)
    | GoAct
    | SpuriousAct

  /** `limit` is the end of the address space that the system hands out. */
  datatype Setting = Setting(c: Config, limit: nat)

  /** A plain block that no one is freeing yet. */
  predicate PlainFree(w: World, p: nat) {
    p in w.plain && forall j :: 0 <= j < |w.threads| ==> w.threads[j] != Unknown(p)
  }

  /** What a client may free: null, live and quarantined pointers, and plain blocks. */
  ghost predicate MayFree(w: World, p: nat)
    requires Shaped(w.shards)
  {
    p == 0 || p in Flat(w.shards) || Quarantined(w.shards, p) || PlainFree(w, p)
  }

  /**
   What thread `i` may do next. An idle thread allocates or frees, inside a guard plainly and past the
   tracker; a thread that has drawn an id goes on tracked or, if it is not sampled, plainly.
   */
  ghost predicate Enabled(g: Setting, w: World, i: nat, a: Act)
    requires Shaped(w.shards)
  {
    && i < |w.threads| && g.limit < W64
    && match w.threads[i]
       case Idle =>
         || (a.AllocAct? && Sane(g.c, a.q.size, a.q.alignment, a.q.tag, a.q.env))
         || a.PlainAct?
         || (a.FreeAct? && MayFree(w, a.p))
         || (a.GuardedFreeAct? && PlainFree(w, a.p))
       case Drawn(_, q) =>
         || (a.MallocAct? && Sane(g.c, q.size, q.alignment, q.tag, q.env))
         || (a.PlainAct? && a.size == q.size)
       case PeakLoaded(_, mine, seen, _, _, _) => a.GoAct? || (a.SpuriousAct? && mine > seen)
       case Erased(_) => a.CheckAct?
       case _ => a.GoAct?
  }

  function At(w: World, i: nat, pc: Pc): World
    requires i < |w.threads|
  {
    w.(threads := w.threads[i := pc])
  }

  /** The record of a block for request `q` at `raw`. */
  function RecordFor(g: Setting, raw: nat, total: nat, id: nat, q: Request): Record
    requires raw + MaxOffset(q.alignment) <= W64
  {
    NewRecord(NewHeader(g.c, raw, id, q.size, q.alignment, q.tag, q.env), FinalTag(g.c, q.tag, q.env), raw, total,
              q.env.frames)
  }

  function TotalFor(g: Setting, q: Request): nat {
    CalculateTotalSize(q.size, EffectiveAlignment(q.alignment), FooterSize(g.c))
  }

  lemma BlockFits(g: Setting, w: World, id: nat, q: Request, choice: nat)
    requires g.limit < W64 && Sane(g.c, q.size, q.alignment, q.tag, q.env)
    requires TotalFor(g, q) != 0 && CanGive(w.live, g.limit, choice, TotalFor(g, q))
    ensures choice + MaxOffset(q.alignment) <= W64
    ensures var r := RecordFor(g, choice, TotalFor(g, q), id, q);
      && r.rawPtr == choice && r.total == TotalFor(g, q) && r.requested == q.size && r.allocationId == id
      && choice < r.userPtr && r.userPtr + q.size < choice + TotalFor(g, q)
  {
    hide UserAddress;
    PartsFitInTotal(choice, q.size, EffectiveAlignment(q.alignment), FooterSize(g.c));
  }

  /** The raw allocation, `init_block` and the filling-in of the record, all on the thread's own block. */
  function Take(g: Setting, w: World, i: nat, id: nat, q: Request, choice: nat): World
    requires i < |w.threads| && g.limit < W64 && Sane(g.c, q.size, q.alignment, q.tag, q.env)
  {
    var total := TotalFor(g, q);
    if total == 0 || !CanGive(w.live, g.limit, choice, total) then At(w, i, Idle) else
    BlockFits(g, w, id, q, choice);
    At(w.(live := w.live[choice := total],
          past := w.past.(mallocs := w.past.mallocs + multiset{choice})),
       i, Placed(RecordFor(g, choice, total, id, q)))
  }

  function Raised(w: World, i: nat, mine: nat): World {
    w.(counters := w.counters.(peak := mine), past := w.past.(raises := w.past.raises + [Raise(i, mine)]))
  }

  function Max(a: nat, b: nat): nat { if a < b then b else a }

  /** One turn of the peak loop; `spurious` makes the exchange fail though the peak is as expected. */
  function PeakStep(w: World, i: nat, spurious: bool): World
    requires i < |w.threads| && w.threads[i].PeakLoaded?
  {
    var pc := w.threads[i];
    var done := w.(past := w.past.(completed := Max(w.past.completed, pc.mine)));
    if pc.mine <= pc.seen then At(done, i, Counted(pc.r, pc.mine))
    else if w.counters.peak == pc.seen && !spurious then At(Raised(done, i, pc.mine), i, Counted(pc.r, pc.mine))
    else At(w, i, pc.(seen := w.counters.peak, at := |w.past.raises|,
                      failures := pc.failures + if w.counters.peak == pc.seen then 0 else 1))
  }

  /** `current_allocated_bytes` takes a new value. */
  function WithCurrent(w: World, current: nat): World {
    w.(counters := w.counters.(current := current), past := w.past.(high := Max(w.past.high, current)))
  }

  function EraseStep(w: World, i: nat, p: nat): World
    requires i < |w.threads| && Shaped(w.shards)
  {
    if p == 0 then At(w, i, Idle) else
    var erased := w.(shards := Erase(w.shards, p));
    match StatusOf(w.shards, p)
    case Success =>
      if p in Flat(w.shards) then
        var r := Flat(w.shards)[p];
        At(erased.(past := w.past.(retired := w.past.retired + {r.allocationId})), i, Erased(r))
      else At(erased, i, Idle)
    case DoubleFreeDetected => At(erased, i, Idle)
    case NotFound => At(erased, i, Unknown(p))
  }

  /** A plain system allocation. */
  function PlainStep(g: Setting, w: World, i: nat, size: nat, choice: nat): World
    requires i < |w.threads|
  {
    At(if CanGive(w.live, g.limit, choice, size)
       then w.(live := w.live[choice := size], plain := w.plain + {choice},
               past := w.past.(mallocs := w.past.mallocs + multiset{choice}))
       else w, i, Idle)
  }

  /** Giving a plain block back; no live header precedes it. */
  function PlainFreeStep(w: World, i: nat, p: nat): World
    requires i < |w.threads|
  {
    At(w.(live := w.live - {p}, plain := w.plain - {p},
          past := w.past.(releases := w.past.releases + multiset{p})), i, Idle)
  }

  /** Giving the block back, or keeping it because it was damaged. */
  function ReleaseStep(w: World, i: nat, raw: nat, intact: bool): World
    requires i < |w.threads|
  {
    At(if intact
       then w.(live := w.live - {raw}, past := w.past.(releases := w.past.releases + multiset{raw}))
       else w.(past := w.past.(retained := w.past.retained + {raw})), i, Idle)
  }

  /** The step that thread `i` takes. */
  function Next(g: Setting, w: World, i: nat, a: Act): World
    requires Shaped(w.shards) && Enabled(g, w, i, a)
  {
    var s := w.counters;
    match w.threads[i]
    case Idle =>
      if a.AllocAct? then
        At(w.(nextId := Wrap(w.nextId + 1), past := w.past.(drawn := w.past.drawn + 1)), i, Drawn(w.nextId, a.q))
      else if a.PlainAct? then PlainStep(g, w, i, a.size, a.choice)
      else if a.GuardedFreeAct? then At(w, i, Unknown(a.p))
      else EraseStep(w, i, a.p)
    case Drawn(id, q) =>
      if a.MallocAct? then Take(g, w, i, id, q, a.choice) else PlainStep(g, w, i, a.size, a.choice)
    case Placed(r) => At(w.(counters := s.(totalAllocated := Wrap(s.totalAllocated + r.requested))), i, TotalAdded(r))
    case TotalAdded(r) => At(w.(counters := s.(allocations := Wrap(s.allocations + 1))), i, CountAdded(r))
    case CountAdded(r) => At(w.(counters := s.(active := Wrap(s.active + 1))), i, ActiveAdded(r))
    case ActiveAdded(r) =>
      var mine := Wrap(s.current + r.requested);
      At(WithCurrent(w, mine), i, CurrentAdded(r, mine))
    case CurrentAdded(r, mine) => At(w, i, PeakLoaded(r, mine, s.peak, |w.past.raises|, |w.past.raises|, 0))
    case PeakLoaded(_, _, _, _, _, _) => PeakStep(w, i, a.SpuriousAct?)
    case Counted(r, _) => At(w.(shards := Insert(w.shards, r.userPtr, r)), i, Idle)
    case Erased(r) => At(w, i, Checked(r, a.intact))
    case Checked(r, ok) => At(w.(counters := s.(totalFreed := Wrap(s.totalFreed + r.requested))), i, FreedAdded(r, ok))
    case FreedAdded(r, ok) => At(w.(counters := s.(frees := Wrap(s.frees + 1))), i, FreesAdded(r, ok))
    case FreesAdded(r, ok) => At(w.(counters := s.(active := Wrap(s.active - 1))), i, ActiveTaken(r, ok))
    case ActiveTaken(r, ok) => At(WithCurrent(w, Wrap(s.current - r.requested)), i, CurrentTaken(r, ok))
    case CurrentTaken(r, ok) => ReleaseStep(w, i, r.rawPtr, ok)
    case Unknown(p) => PlainFreeStep(w, i, p)
  }

  function Begin(threads: nat): World {
    World(Empty(), map[], {}, ZERO, 1, seq(threads, _ => Idle),
          Past(0, [], 0, multiset{}, multiset{}, {}, 0, {}))
  }

  /** Every thread is between calls. */
  predicate Quiescent(w: World) {
    forall i :: 0 <= i < |w.threads| ==> w.threads[i].Idle?
  }

  // ---------- who holds what

  /** The record whose block this thread has to itself. */
  function Holding(pc: Pc): Option<Record> {
    if pc.Idle? || pc.Drawn? || pc.Unknown? then None else Some(pc.r)
  }

  datatype Slot = Kept(p: nat) | Held(i: nat)

  /** The record in the tracker at `p`, or the one thread `i` holds. */
  function Owned(recs: Table, threads: seq<Pc>, slot: Slot): Option<Record> {
    match slot
    case Kept(p) => if p in recs then Some(recs[p]) else None
    case Held(i) => if i < |threads| then Holding(threads[i]) else None
  }

  datatype Measure = Bytes | Blocks | AllBytes | AllBlocks

  /** What an operation in flight contributes to a counter. */
  function Weight(k: Measure, pc: Pc): nat {
    var counted := match pc
      case Idle => false
      case Drawn(_, _) => false
      case Placed(_) => false
      case TotalAdded(_) => k.AllBytes?
      case CountAdded(_) => k.AllBytes? || k.AllBlocks?
      case ActiveAdded(_) => !k.Bytes?
      case FreedAdded(_, _) => !k.AllBytes?
      case FreesAdded(_, _) => k.Bytes? || k.Blocks?
      case ActiveTaken(_, _) => k.Bytes?
      case CurrentTaken(_, _) => false
      case Unknown(_) => false
      case _ => true;
    if !counted then 0 else if k.Bytes? || k.AllBytes? then pc.r.requested else 1
  }

  function InFlight(k: Measure, threads: seq<Pc>): nat {
    if threads == [] then 0
    else InFlight(k, threads[..|threads| - 1]) + Weight(k, threads[|threads| - 1])
  }
}
