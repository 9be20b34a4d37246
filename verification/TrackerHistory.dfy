/**
 Every run of the tracker, as the list of calls made on it. The quarantine ring is characterised
 by the run alone: a pointer is recognised as a double free exactly when it is among the last 256
 successful erases of its shard and has not been inserted since.
 */
module TrackerHistory {
  import opened Words
  import opened Records
  import opened TrackerSpec

  datatype Call = InsertCall(p: nat, r: Record) | EraseCall(p: nat) | ClearCall

  type History = seq<Call>

  function Apply(t: Shards, c: Call): (t': Shards)
    requires Shaped(t)
    ensures Shaped(t')
  {
    match c
    case InsertCall(p, r) => Insert(t, p, r)
    case EraseCall(p) => Erase(t, p)
    case ClearCall => Empty()
  }

  /** The tracker after the calls of `h`. */
  function Run(h: History): (t: Shards)
    ensures Shaped(t)
  {
    if h == [] then Empty() else Apply(Run(h[..|h| - 1]), h[|h| - 1])
  }

  /** What a single map would hold after the calls of `h`. */
  function Live(h: History): Table {
    if h == [] then map[] else
    var before := Live(h[..|h| - 1]);
    match h[|h| - 1]
    case InsertCall(p, r) => if p == 0 then before else before[p := r]
    case EraseCall(p) => before - {p}
    case ClearCall => map[]
  }

  /** The 64 shards refine one map, over every run. */
  lemma {:induction false} RunRefinesMap(h: History)
    ensures Valid(Run(h)) && Flat(Run(h)) == Live(h)
    ensures SizeUpTo(Run(h), SHARD_COUNT) == |Live(h)|
  {
    hide ShardIndex, ShardValid, Flat;
    if h == [] {
      EmptyIsValid();
    } else {
      RunRefinesMap(h[..|h| - 1]);
      match h[|h| - 1]
      case InsertCall(p, r) => if p != 0 { InsertRefines(Run(h[..|h| - 1]), p, r); }
      case EraseCall(p) => EraseRefines(Run(h[..|h| - 1]), p);
      case ClearCall => EmptyIsValid();
    }
    SizeRefines(Run(h));
  }

  // ---------- the double-free window, stated on the run alone

  /** Call number `i` erased `p` and succeeded. */
  predicate ErasedAt(h: History, i: nat, p: nat) {
    i < |h| && h[i] == EraseCall(p) && p in Live(h[..i])
  }

  /** The number of successful erases in shard `s` from call number `k` on. */
  function ErasesSince(h: History, k: nat, s: nat): nat
    decreases |h|
  {
    if k >= |h| then 0 else
    var last := |h| - 1;
    ErasesSince(h[..last], k, s)
      + if h[last].EraseCall? && ErasedAt(h, last, h[last].p) && ShardIndex(h[last].p) == s then 1 else 0
  }

  predicate Undisturbed(c: Call, p: nat) {
    !c.ClearCall? && !(c.InsertCall? && c.p == p)
  }

  /** `p` was erased by call `i`, not inserted since, and fewer than 256 erases followed in its shard. */
  predicate InWindow(h: History, i: nat, p: nat) {
    && ErasedAt(h, i, p)
    && (forall j :: i < j < |h| ==> Undisturbed(h[j], p))
    && ErasesSince(h, i + 1, ShardIndex(p)) < QUARANTINE_SIZE
  }

  // ---------- depth in the ring

  /** The slot written `d` erases before the next one. */
  function Slot(head: nat, d: nat): (i: nat)
    requires d < QUARANTINE_SIZE
    ensures i < QUARANTINE_SIZE
  {
    (head + (QUARANTINE_SIZE - 1) - d) % QUARANTINE_SIZE
  }

  /** The head counter wraps at 2^64, which is a multiple of the ring size, so slots only shift. */
  lemma SlotShifts(head: nat, d: nat)
    requires d < QUARANTINE_SIZE
    ensures Slot(Wrap(head + 1), d) == if d == 0 then head % QUARANTINE_SIZE else Slot(head, d - 1)
    ensures d > 0 ==> Slot(head, d - 1) != head % QUARANTINE_SIZE
  {
    var q := (head + 1) / W64;
    assert head + 1 == q * W64 + Wrap(head + 1);
    var x := head + QUARANTINE_SIZE - d;
    ModuloIs(Wrap(head + 1) + (QUARANTINE_SIZE - 1) - d, QUARANTINE_SIZE,
             x / QUARANTINE_SIZE - q * 0x100_0000_0000_0000, x % QUARANTINE_SIZE);
    ShiftedSlot(head, d);
  }

  lemma ShiftedSlot(head: nat, d: nat)
    requires d < QUARANTINE_SIZE
    ensures d == 0 ==> (head + QUARANTINE_SIZE) % QUARANTINE_SIZE == head % QUARANTINE_SIZE
    ensures d > 0 ==> (head + QUARANTINE_SIZE - d) % QUARANTINE_SIZE != head % QUARANTINE_SIZE
  {
  }

  /** What the ring holds `d` erases back from its head. */
  function AtDepth(sh: Shard, d: nat): nat
    requires |sh.ring| == QUARANTINE_SIZE && d < QUARANTINE_SIZE
  {
    sh.ring[Slot(sh.head, d)]
  }

  lemma DepthCoversRing(sh: Shard, p: nat)
    requires |sh.ring| == QUARANTINE_SIZE
    ensures p in sh.ring <==> exists d: nat :: d < QUARANTINE_SIZE && AtDepth(sh, d) == p
  {
    if p in sh.ring {
      var i :| 0 <= i < |sh.ring| && sh.ring[i] == p;
      var d := (sh.head + (QUARANTINE_SIZE - 1) - i) % QUARANTINE_SIZE;
      SlotOfDepth(sh.head, i);
      assert AtDepth(sh, d) == p;
    }
  }

  lemma SlotOfDepth(head: nat, i: nat)
    requires i < QUARANTINE_SIZE
    ensures Slot(head, (head + (QUARANTINE_SIZE - 1) - i) % QUARANTINE_SIZE) == i
  {
  }

  /** Erasing a live pointer pushes it on the ring and everything else one deeper. */
  lemma EraseDeepens(sh: Shard, p: nat, d: nat)
    requires |sh.ring| == QUARANTINE_SIZE && p in sh.records && d < QUARANTINE_SIZE
    ensures AtDepth(EraseShard(sh, p), d) == if d == 0 then p else AtDepth(sh, d - 1)
  {
    hide Slot, Wrap;
    SlotShifts(sh.head, d);
  }

  lemma InsertReleases(sh: Shard, p: nat, r: Record, d: nat)
    requires |sh.ring| == QUARANTINE_SIZE && d < QUARANTINE_SIZE
    ensures AtDepth(InsertShard(sh, p, r), d) == if AtDepth(sh, d) == p then 0 else AtDepth(sh, d)
  {
  }

  /** How many erases of its shard ago `p` was erased, if it has not been inserted since; -1 if never. */
  function Age(h: History, p: nat): int {
    if h == [] then -1 else
    var before := Age(h[..|h| - 1], p);
    match h[|h| - 1]
    case InsertCall(q, _) => if q == p then -1 else before
    case ClearCall => -1
    case EraseCall(q) =>
      if q !in Live(h[..|h| - 1]) then before
      else if q == p then 0
      else if ShardIndex(q) == ShardIndex(p) && before >= 0 then before + 1
      else before
  }

  lemma EmptyDepth(s: nat, d: nat)
    requires s < SHARD_COUNT && d < QUARANTINE_SIZE
    ensures AtDepth(Empty()[s], d) == 0
  {
  }

  /** What one call does to the ring of shard `s`. */
  lemma DepthAfter(t: Shards, c: Call, s: nat, d: nat)
    requires Valid(t) && s < SHARD_COUNT && d < QUARANTINE_SIZE
    ensures AtDepth(Apply(t, c)[s], d) ==
      match c
      case InsertCall(q, _) =>
        if q != 0 && ShardIndex(q) == s && AtDepth(t[s], d) == q then 0 else AtDepth(t[s], d)
      case EraseCall(q) =>
        if q !in Flat(t) || ShardIndex(q) != s then AtDepth(t[s], d)
        else if d == 0 then q else AtDepth(t[s], d - 1)
      case ClearCall => 0
  {
    hide ShardIndex, ShardValid, Flat, Slot, AtDepth, Empty, InsertShard;
    match c
    case InsertCall(q, r) => if q != 0 && ShardIndex(q) == s { InsertReleases(t[s], q, r, d); }
    case EraseCall(q) =>
      FlatLookup(t, q);
      if q in Flat(t) && ShardIndex(q) == s { EraseDeepens(t[s], q, d); }
    case ClearCall => EmptyDepth(s, d);
  }

  /** A pointer's depth in its ring is its age. */
  lemma {:induction false} DepthIsAge(h: History, p: nat, d: nat)
    requires p != 0 && d < QUARANTINE_SIZE
    ensures AtDepth(Run(h)[ShardIndex(p)], d) == p <==> Age(h, p) == d
  {
    hide ShardIndex, ShardValid, Flat, AtDepth, Apply, Empty;
    var s := ShardIndex(p);
    if h == [] {
      EmptyDepth(s, d);
    } else {
      var h', call := h[..|h| - 1], h[|h| - 1];
      RunRefinesMap(h');
      DepthAfter(Run(h'), call, s, d);
      DepthIsAge(h', p, d);
      if call.EraseCall? && call.p in Live(h') && ShardIndex(call.p) == s && d > 0 {
        DepthIsAge(h', p, d - 1);
        if call.p == p { LiveIsNotQuarantined(Run(h'), p, d - 1); }
      }
    }
  }

  lemma LiveIsNotQuarantined(t: Shards, p: nat, d: nat)
    requires Valid(t) && p in Flat(t) && d < QUARANTINE_SIZE
    ensures AtDepth(t[ShardIndex(p)], d) != p
  {
    hide ShardIndex, Slot;
    FlatLookup(t, p);
    assert ShardValid(t[ShardIndex(p)], ShardIndex(p));
  }

  /** Call `i` erased `p`, which has not been inserted since, and `d` erases followed in its shard. */
  predicate AgedAt(h: History, i: nat, p: nat, d: int) {
    && ErasedAt(h, i, p)
    && (forall j :: i < j < |h| ==> Undisturbed(h[j], p))
    && ErasesSince(h, i + 1, ShardIndex(p)) == d
  }

  lemma UndisturbedStep(h: History, h': History, i: nat, p: nat)
    requires h != [] && h' == h[..|h| - 1] && i < |h'|
    ensures (forall j :: i < j < |h| ==> Undisturbed(h[j], p)) <==>
      && Undisturbed(h[|h| - 1], p)
      && forall j :: i < j < |h'| ==> Undisturbed(h'[j], p)
  {
    hide Undisturbed;
    assert forall j :: 0 <= j < |h'| ==> h'[j] == h[j];
  }

  lemma ErasesStep(h: History, k: nat, s: nat)
    requires k < |h|
    ensures ErasesSince(h, k, s) == ErasesSince(h[..|h| - 1], k, s) + ErasesSince(h, |h| - 1, s)
  {
    hide ShardIndex, ErasedAt;
    assert ErasesSince(h[..|h| - 1], |h| - 1, s) == 0;
  }

  lemma ErasedAtStep(h: History, i: nat, p: nat)
    requires h != [] && i < |h| - 1
    ensures ErasedAt(h, i, p) <==> ErasedAt(h[..|h| - 1], i, p)
  {
    hide Live;
    assert h[..|h| - 1][..i] == h[..i];
  }

  /** Only the last call can change an age, and it does so in step with `Age`. */
  lemma AgedAtStep(h: History, i: nat, p: nat, d: int)
    requires h != [] && i < |h| - 1
    ensures AgedAt(h, i, p, d) <==>
      && Undisturbed(h[|h| - 1], p)
      && AgedAt(h[..|h| - 1], i, p, d - ErasesSince(h, |h| - 1, ShardIndex(p)))
  {
    hide ShardIndex, ErasesSince, ErasedAt, Undisturbed;
    UndisturbedStep(h, h[..|h| - 1], i, p);
    ErasedAtStep(h, i, p);
    ErasesStep(h, i + 1, ShardIndex(p));
  }

  lemma {:induction false} AgedIsDead(h: History, p: nat)
    ensures Age(h, p) >= 0 ==> p !in Live(h)
  {
    hide ShardIndex;
    if h != [] { AgedIsDead(h[..|h| - 1], p); }
  }

  lemma {:induction false} AgeIsErasesSince(h: History, p: nat, d: nat)
    requires p != 0
    ensures Age(h, p) == d <==> exists i: nat :: AgedAt(h, i, p, d)
  {
    if h != [] {
      if Age(h, p) == d { AgeHasWitness(h, p, d); }
      if exists i: nat :: AgedAt(h, i, p, d) {
        var i: nat :| AgedAt(h, i, p, d);
        WitnessHasAge(h, i, p, d);
      }
    }
  }

  lemma LastErase(h: History, s: nat)
    requires h != []
    ensures ErasesSince(h, |h| - 1, s) ==
      if h[|h| - 1].EraseCall? && h[|h| - 1].p in Live(h[..|h| - 1]) && ShardIndex(h[|h| - 1].p) == s then 1 else 0
    ensures ErasesSince(h, |h|, s) == 0
  {
    hide ShardIndex;
    assert ErasesSince(h[..|h| - 1], |h| - 1, s) == 0;
  }

  lemma {:induction false} AgeHasWitness(h: History, p: nat, d: nat)
    requires p != 0 && Age(h, p) == d
    ensures exists i: nat :: AgedAt(h, i, p, d)
    decreases |h|
  {
    hide ShardIndex;
    var last := |h| - 1;
    var h' := h[..last];
    LastErase(h, ShardIndex(p));
    if h[last] == EraseCall(p) && p in Live(h') {
      assert AgedAt(h, last, p, 0);
    } else {
      var e := ErasesSince(h, last, ShardIndex(p));
      AgeHasWitness(h', p, d - e);
      var i: nat :| AgedAt(h', i, p, d - e);
      AgedAtStep(h, i, p, d);
    }
  }

  lemma {:induction false} WitnessHasAge(h: History, i: nat, p: nat, d: nat)
    requires p != 0 && AgedAt(h, i, p, d)
    ensures Age(h, p) == d
    decreases |h|
  {
    hide ShardIndex;
    var last := |h| - 1;
    LastErase(h, ShardIndex(p));
    if i < last {
      AgedAtStep(h, i, p, d);
      WitnessHasAge(h[..last], i, p, d - ErasesSince(h, last, ShardIndex(p)));
      AgedIsDead(h[..last], p);
    }
  }

  // ---------- main results

  /**
   Over every run, `erase` answers DOUBLE_FREE_DETECTED exactly when the pointer is not live, was
   erased by one of the last 256 successful erases of its shard and has not been inserted since.
   */
  lemma DoubleFreeIff(h: History, p: nat)
    requires p != 0
    ensures StatusOf(Run(h), p) == DoubleFreeDetected <==> exists i: nat :: InWindow(h, i, p)
    ensures StatusOf(Run(h), p) == Success <==> p in Live(h)
    ensures (exists i: nat :: InWindow(h, i, p)) ==> p !in Live(h)
  {
    hide ShardIndex, ShardValid, Flat, Age;
    RunRefinesMap(h);
    EraseRefines(Run(h), p);
    DepthCoversRing(Run(h)[ShardIndex(p)], p);
    if Quarantined(Run(h), p) {
      var d: nat :| d < QUARANTINE_SIZE && AtDepth(Run(h)[ShardIndex(p)], d) == p;
      DepthIsAge(h, p, d);
      AgeIsErasesSince(h, p, d);
      AgedIsDead(h, p);
      var i: nat :| AgedAt(h, i, p, d);
      assert InWindow(h, i, p);
    }
    if exists i: nat :: InWindow(h, i, p) {
      var i: nat :| InWindow(h, i, p);
      var d := ErasesSince(h, i + 1, ShardIndex(p));
      assert AgedAt(h, i, p, d);
      AgeIsErasesSince(h, p, d);
      DepthIsAge(h, p, d);
      AgedIsDead(h, p);
    }
  }

  // ---------- snapshot_all while other calls run

  /**
   `snapshot_all` locks the shards one after another. Shard `i` is read when `visit[i]` of the
   calls of `h` have happened, and contributes `parts[i]`.
   */
  ghost predicate IsScan(h: History, visit: seq<nat>, parts: seq<Part>) {
    && |visit| == |parts| == SHARD_COUNT
    && (forall i, j :: 0 <= i <= j < SHARD_COUNT ==> visit[i] <= visit[j])
    && visit[SHARD_COUNT - 1] <= |h|
    && (forall i :: 0 <= i < SHARD_COUNT ==>
          visit[i] <= |h| && Enumerates(parts[i].records, parts[i].keys, Run(h[..visit[i]])[i].records))
  }

  /** Every returned record was live at the moment its shard was read. */
  lemma ScanIsSound(h: History, visit: seq<nat>, parts: seq<Part>, i: nat, j: nat)
    requires IsScan(h, visit, parts) && i < SHARD_COUNT && j < |parts[i].keys|
    ensures |parts[i].records| == |parts[i].keys|
    ensures var p, r := parts[i].keys[j], parts[i].records[j];
      && ShardIndex(p) == i
      && p in Live(h[..visit[i]]) && Live(h[..visit[i]])[p] == r
  {
    hide ShardIndex;
    var t := Run(h[..visit[i]]);
    RunRefinesMap(h[..visit[i]]);
    assert ShardValid(t[i], i);
    FlatLookup(t, parts[i].keys[j]);
  }

  /** No pointer is returned twice, whatever runs in between. */
  lemma ScanHasNoDuplicates(h: History, visit: seq<nat>, parts: seq<Part>, i: nat, j: nat, i': nat, j': nat)
    requires IsScan(h, visit, parts)
    requires i < SHARD_COUNT && j < |parts[i].keys| && i' < SHARD_COUNT && j' < |parts[i'].keys|
    requires (i, j) != (i', j')
    ensures parts[i].keys[j] != parts[i'].keys[j']
  {
    hide ShardIndex, Run, Live;
    ScanIsSound(h, visit, parts, i, j);
    ScanIsSound(h, visit, parts, i', j');
    if i == i' {
      var part := parts[i];
      assert Enumerates(part.records, part.keys, Run(h[..visit[i]])[i].records);
      if j < j' { assert part.keys[j] != part.keys[j']; } else { assert part.keys[j'] != part.keys[j]; }
    }
  }

  /** Every record that is live throughout the scan is returned. */
  lemma ScanIsComplete(h: History, visit: seq<nat>, parts: seq<Part>, p: nat, r: Record)
    requires IsScan(h, visit, parts)
    requires forall n :: visit[0] <= n <= visit[SHARD_COUNT - 1] ==> p in Live(h[..n]) && Live(h[..n])[p] == r
    ensures p in parts[ShardIndex(p)].keys && r in parts[ShardIndex(p)].records
  {
    hide ShardIndex, Flat;
    var i := ShardIndex(p);
    RunRefinesMap(h[..visit[i]]);
    FlatLookup(Run(h[..visit[i]]), p);
    EnumerationIsAll(parts[i].records, parts[i].keys, Run(h[..visit[i]])[i].records);
  }
}
