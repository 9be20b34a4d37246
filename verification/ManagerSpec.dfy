/**
 The manager as a value: what each entry point does to memory, to the system allocator's
 outstanding blocks, to the tracker, to the counters and to the log of alerts.
 */
module ManagerSpec {
  import opened Words
  import opened Layout
  import opened Block
  import opened Records
  import opened TrackerSpec
  import opened Stats
  import opened Sampling
  import opened SystemHeap

  datatype Alert = Corrupted(user: nat, kind: Corruption) | LimitExceeded(current: nat, limit: nat)

  /** What one call gets from outside: malloc's choice, scope tag, thread, stack, random draws. */
  datatype Env = Env(choice: nat, scopeTag: nat, threadId: nat, frames: seq<nat>,
                     firstDraw: int, nextDraw: int, spuriousFailures: nat)

  datatype State = State(
    mem: seq<Byte>, live: map<nat, nat>, shards: Shards, counters: Counters,
    nextId: nat, countdown: int, log: seq<Alert>, initialised: bool, guarded: bool)

  function FooterSize(c: Config): nat {
    if c.enableCanary then c.canaryFooterSize else 0
  }

  /** The fixed part of a block fits in a word, and so does the size asked for. */
  predicate Sane(c: Config, size: nat, alignment: nat, tag: nat, env: Env) {
    && size < W64 && alignment < W64 && MaxOffset(alignment) + FooterSize(c) < W64
    && tag < W64 && c.defaultTag < W64 && env.scopeTag < W64 && env.threadId < W32
  }

  // ---------- plain system calls

  function RawAlloc(s: State, size: nat, choice: nat): (State, nat) {
    var p := MallocResult(s.live, |s.mem|, size, choice);
    (if p == 0 then s else s.(live := s.live[p := size]), p)
  }

  function RawFree(s: State, p: nat): State {
    s.(live := s.live - {p})
  }

  function RawRealloc(s: State, p: nat, size: nat, choice: nat): (State, nat)
    requires p != 0 ==> p in s.live && p + s.live[p] <= |s.mem|
  {
    if p == 0 then RawAlloc(s, size, choice)
    else if size == 0 then (RawFree(s, p), 0)
    else
      var q := MallocResult(s.live - {p}, |s.mem|, size, choice);
      if q == 0 then (s, 0)
      else (s.(live := (s.live - {p})[q := size],
               mem := Put(s.mem, q, s.mem[p..p + Kept(s.live[p], size)])), q)
  }

  // ---------- allocate

  function FinalTag(c: Config, tag: nat, env: Env): nat {
    if tag != 0 then tag else if env.scopeTag != 0 then env.scopeTag else c.defaultTag
  }

  function Watchdog(c: Config, s: State): State {
    if c.maxHeapBytes > 0 && c.hasWatchdog && s.counters.current > c.maxHeapBytes
    then s.(log := s.log + [LimitExceeded(s.counters.current, c.maxHeapBytes)]) else s
  }

  /** The header and record of a block placed at `raw`. */
  function NewHeader(c: Config, raw: nat, id: nat, size: nat, alignment: nat, tag: nat, env: Env): Header
    requires raw + MaxOffset(alignment) <= W64
  {
    InitialHeader(raw, size, EffectiveAlignment(alignment), FooterSize(c), id, FinalTag(c, tag, env),
                  c.enableCanary, env.threadId)
  }

  function NewRecord(h: Header, tag: nat, raw: nat, total: nat, frames: seq<nat>): Record {
    Record(h.allocationId, raw + h.userOffset, raw, h.requested, total, h.alignment, h.threadId, tag, frames)
  }

  function AllocateTracked(c: Config, s: State, id: nat, size: nat, alignment: nat, tag: nat, env: Env): (State, nat)
    requires Sane(c, size, alignment, tag, env) && |s.mem| < W64 && Shaped(s.shards)
  {
    var total := CalculateTotalSize(size, EffectiveAlignment(alignment), FooterSize(c));
    if total == 0 then (s, 0) else
    var raw := MallocResult(s.live, |s.mem|, total, env.choice);
    if raw == 0 then (s, 0) else
    PartsFitInTotal(raw, size, EffectiveAlignment(alignment), FooterSize(c));
    var h := NewHeader(c, raw, id, size, alignment, tag, env);
    var user := raw + h.userOffset;
    var s' := s.(mem := Initialised(s.mem, raw, h, FooterSize(c)),
                 live := s.live[raw := total],
                 counters := OnAlloc(s.counters, size),
                 shards := Insert(s.shards, user, NewRecord(h, FinalTag(c, tag, env), raw, total, env.frames)));
    (Watchdog(c, s'), user)
  }

  function Allocate(c: Config, s: State, size: nat, alignment: nat, tag: nat, env: Env): (State, nat)
    requires Sane(c, size, alignment, tag, env) && |s.mem| < W64 && Shaped(s.shards)
  {
    if s.guarded || !s.initialised then RawAlloc(s, size, env.choice) else
    var (sampled, countdown) := Decide(c, s.nextId, size, s.countdown, env.firstDraw, env.nextDraw);
    var counted := s.(nextId := Wrap(s.nextId + 1), countdown := countdown);
    if sampled then AllocateTracked(c, counted, s.nextId, size, alignment, tag, env)
    else RawAlloc(counted, size, env.choice)
  }

  // ---------- deallocate

  /** The bytes that the lookup and the check read and that poisoning writes are inside memory. */
  ghost predicate CanCheck(c: Config, s: State, p: nat)
    requires Shaped(s.shards)
  {
    && (p in Flat(s.shards) ==> Poisonable(s.mem, Flat(s.shards)[p].rawPtr, FooterSize(c)))
    && (p != 0 && StatusOf(s.shards, p) == NotFound ==>
          && MAX_LINK <= p <= |s.mem|
          && (BackLink(s.mem, p).Some? ==> Poisonable(s.mem, BackLink(s.mem, p).value, c.canaryFooterSize)))
  }

  /** Releases `r`, which the tracker has just given up: checked, and freed if the check passes. */
  ghost function Release(c: Config, s: State, p: nat, r: Record): State
    requires Poisonable(s.mem, r.rawPtr, FooterSize(c))
  {
    var verdict := Verdict(s.mem, r.rawPtr, FooterSize(c));
    var counters := OnFree(s.counters, r.requested);
    if verdict == NoCorruption then
      s.(counters := counters, mem := Poisoned(s.mem, r.rawPtr, FooterSize(c)), live := s.live - {r.rawPtr})
    else
      s.(counters := counters, log := s.log + [Corrupted(p, verdict)])
  }

  /** `deallocate`: the tracker first; for a pointer it does not know, the back-link decides what is freed. */
  ghost function Deallocate(c: Config, s: State, p: nat): State
    requires TrackerSpec.Valid(s.shards) && CanCheck(c, s, p)
  {
    if p == 0 then s else
    FlatLookup(s.shards, p);
    EraseRefines(s.shards, p);
    match StatusOf(s.shards, p)
    case Success => Release(c, s.(shards := Erase(s.shards, p)), p, Flat(s.shards)[p])
    case DoubleFreeDetected => s.(log := s.log + [Corrupted(p, DoubleFree)])
    case NotFound =>
      match BackLink(s.mem, p)
      case Some(header) => RawFree(s.(mem := Poisoned(s.mem, header, c.canaryFooterSize)), header)
      case None => RawFree(s, p)
  }

  // ---------- reallocate

  /** The check that `reallocate` makes on the old block; it only reports. */
  ghost function CheckOld(c: Config, s: State, p: nat, r: Record): State
    requires Checkable(s.mem, r.rawPtr, FooterSize(c))
  {
    if c.enableCanary && Verdict(s.mem, r.rawPtr, FooterSize(c)) != NoCorruption
    then s.(log := s.log + [Corrupted(p, Verdict(s.mem, r.rawPtr, FooterSize(c)))]) else s
  }

  /** Copies the payload over. */
  function CopyPayload(s: State, from: nat, to: nat, n: nat): State
    requires from + n <= |s.mem| && to + n <= |s.mem|
  {
    s.(mem := Put(s.mem, to, s.mem[from..from + n]))
  }
}
