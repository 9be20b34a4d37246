/** Heap snapshots and their differences, matched by allocation id. */
module Snapshot {
  import opened Words
  import opened Wrappers
  import opened Records
  import opened Stats
  import opened Sampling
  import opened TrackerSpec
  import opened SystemHeap
  import opened Concurrent
  import opened ConcurrentProofs
  import opened ConcurrentRuns
  import opened ConcurrentHistory

  datatype HeapSnapshot = HeapSnapshot(records: seq<Record>, current: nat, active: nat)

  /** A net delta of `None` is one that the subtraction leaves undefined. */
  datatype Diff = Diff(persistent: seq<Record>, added: seq<Record>, freed: seq<Record>,
                       netBytes: Option<int>, netAllocations: Option<int>)

  /** Two counters are read as signed 64-bit numbers and subtracted; a result that needs more bits is undefined. */
  function Delta(after: nat, before: nat): Option<int> {
    var d := Signed(after) - Signed(before);
    if FitsSigned(d) then Some(d) else None
  }

  predicate FitsSigned(d: int) { -(W64 / 2) <= d < W64 / 2 }

  function Ids(rs: seq<Record>): set<nat> {
    set r | r in rs :: r.allocationId
  }

  /** The records by id; a later record replaces an earlier one. */
  function ById(rs: seq<Record>): Table {
    if rs == [] then map[] else ById(rs[..|rs| - 1])[rs[|rs| - 1].allocationId := rs[|rs| - 1]]
  }

  /** The records whose id is in `ids`, or is not, in their order. */
  function Select(rs: seq<Record>, ids: set<nat>, wanted: bool): seq<Record> {
    if rs == [] then [] else
    var rest := Select(rs[..|rs| - 1], ids, wanted);
    if (rs[|rs| - 1].allocationId in ids) == wanted then rest + [rs[|rs| - 1]] else rest
  }

  lemma {:induction false} ByIdKeys(rs: seq<Record>)
    ensures ById(rs).Keys == Ids(rs)
  {
    if rs != [] {
      var rest, last := rs[..|rs| - 1], rs[|rs| - 1];
      ByIdKeys(rest);
      assert rs == rest + [last];
      assert Ids(rs) == Ids(rest) + {last.allocationId};
    }
  }

  lemma SelectStep(rs: seq<Record>, ids: set<nat>, wanted: bool, i: nat)
    requires i < |rs|
    ensures Select(rs[..i + 1], ids, wanted) ==
      Select(rs[..i], ids, wanted) + if (rs[i].allocationId in ids) == wanted then [rs[i]] else []
  {
    assert rs[..i + 1][..i] == rs[..i];
  }

  /** Selecting goes through the records in their order: of two lists one after another, the first one's come first. */
  lemma {:induction false} SelectKeepsOrder(a: seq<Record>, b: seq<Record>, ids: set<nat>, wanted: bool)
    ensures Select(a + b, ids, wanted) == Select(a, ids, wanted) + Select(b, ids, wanted)
    ensures |a| == 1 ==> Select(a, ids, wanted) == if (a[0].allocationId in ids) == wanted then a else []
  {
    if |a| == 1 { assert a[..0] == [] && a == [a[0]]; }
    if b == [] {
      assert a + b == a;
    } else {
      SelectKeepsOrder(a, b[..|b| - 1], ids, wanted);
      assert (a + b)[..|a + b| - 1] == a + b[..|b| - 1];
    }
  }

  lemma NothingYet(rs: seq<Record>, ids: set<nat>)
    ensures Ids(rs[..0]) == {} && Select(rs[..0], ids, true) == Select(rs[..0], ids, false) == []
  {
  }

  lemma IdsStep(rs: seq<Record>, i: nat)
    requires i < |rs|
    ensures Ids(rs[..i + 1]) == Ids(rs[..i]) + {rs[i].allocationId}
  {
    assert rs[..i + 1] == rs[..i] + [rs[i]];
  }

  lemma IdsHave(rs: seq<Record>)
    ensures forall r :: r in rs ==> r.allocationId in Ids(rs)
  {
  }

  lemma {:induction false} SelectAgrees(rs: seq<Record>, a: set<nat>, b: set<nat>, wanted: bool)
    requires forall r :: r in rs ==> (r.allocationId in a <==> r.allocationId in b)
    ensures Select(rs, a, wanted) == Select(rs, b, wanted)
  {
    if rs != [] { SelectAgrees(rs[..|rs| - 1], a, b, wanted); }
  }

  method CompareSnapshots(before: HeapSnapshot, after: HeapSnapshot) returns (d: Diff)
    ensures d.persistent == Select(after.records, Ids(before.records), true)
    ensures d.added == Select(after.records, Ids(before.records), false)
    ensures d.freed == Select(before.records, Ids(after.records), false)
    ensures d.netBytes == Delta(after.current, before.current)
    ensures d.netAllocations == Delta(after.active, before.active)
  {
    hide Delta, Ids, Select;
    var old_, now := before.records, after.records;
    var beforeMap: Table := map[];
    for i := 0 to |old_|
      invariant beforeMap == ById(old_[..i])
    {
      assert old_[..i + 1][..i] == old_[..i];
      beforeMap := beforeMap[old_[i].allocationId := old_[i]];
    }
    assert old_[..|old_|] == old_;
    ByIdKeys(old_);
    NothingYet(now, Ids(old_));
    var persistent, added: seq<Record>, matched: set<nat> := [], [], {};
    for i := 0 to |now|
      invariant persistent == Select(now[..i], Ids(old_), true)
      invariant added == Select(now[..i], Ids(old_), false)
      invariant matched == Ids(now[..i]) * Ids(old_)
    {
      SelectStep(now, Ids(old_), true, i);
      SelectStep(now, Ids(old_), false, i);
      IdsStep(now, i);
      if now[i].allocationId in beforeMap {
        persistent := persistent + [now[i]];
        matched := matched + {now[i].allocationId};
      } else {
        added := added + [now[i]];
      }
    }
    assert now[..|now|] == now;
    var freed := [];
    NothingYet(old_, matched);
    for i := 0 to |old_|
      invariant freed == Select(old_[..i], matched, false)
    {
      SelectStep(old_, matched, false, i);
      if old_[i].allocationId !in matched { freed := freed + [old_[i]]; }
    }
    assert forall r :: r in old_ ==> r.allocationId in Ids(old_) by { IdsHave(old_); }
    SelectAgrees(old_, matched, Ids(now), false);
    d := Diff(persistent, added, freed, Delta(after.current, before.current), Delta(after.active, before.active));
  }

  // ---------- partition

  /** Every record is on exactly one side. */
  lemma {:induction false} SelectPartitions(rs: seq<Record>, ids: set<nat>)
    ensures multiset(rs) == multiset(Select(rs, ids, true)) + multiset(Select(rs, ids, false))
    ensures forall r :: r in Select(rs, ids, true) <==> r in rs && r.allocationId in ids
    ensures forall r :: r in Select(rs, ids, false) <==> r in rs && r.allocationId !in ids
  {
    if rs != [] {
      SelectPartitions(rs[..|rs| - 1], ids);
      assert rs == rs[..|rs| - 1] + [rs[|rs| - 1]];
    }
  }

  function Bytes(rs: seq<Record>): nat {
    if rs == [] then 0 else Bytes(rs[..|rs| - 1]) + rs[|rs| - 1].requested
  }

  ghost predicate UniqueIds(rs: seq<Record>) {
    forall i, j :: 0 <= i < j < |rs| ==> rs[i].allocationId != rs[j].allocationId
  }

  lemma {:induction false} BytesById(rs: seq<Record>)
    requires UniqueIds(rs)
    ensures Bytes(rs) == SumRequested(ById(rs)) && |rs| == |ById(rs)|
  {
    hide SumRequested;
    if rs == [] {
      EmptySums();
    } else {
      var rest, last := rs[..|rs| - 1], rs[|rs| - 1];
      BytesById(rest);
      ByIdKeys(rest);
      SumWith(ById(rest), last.allocationId, last);
    }
  }

  lemma EmptySums()
    ensures SumRequested(map[]) == 0
  {
  }

  function Restrict(m: Table, ids: set<nat>, wanted: bool): Table {
    map id | id in m && (id in ids) == wanted :: m[id]
  }

  lemma RestrictWith(m: Table, id: nat, r: Record, ids: set<nat>, wanted: bool)
    requires id !in m
    ensures Restrict(m[id := r], ids, wanted) ==
      if (id in ids) == wanted then Restrict(m, ids, wanted)[id := r] else Restrict(m, ids, wanted)
    ensures id !in Restrict(m, ids, wanted)
  {
  }

  lemma LastIsNew(rs: seq<Record>)
    requires rs != [] && UniqueIds(rs)
    ensures UniqueIds(rs[..|rs| - 1]) && rs[|rs| - 1].allocationId !in ById(rs[..|rs| - 1])
  {
    ByIdKeys(rs[..|rs| - 1]);
  }

  lemma UniqueWith(rs: seq<Record>, r: Record)
    requires UniqueIds(rs) && r.allocationId !in ById(rs)
    ensures UniqueIds(rs + [r]) && ById(rs + [r]) == ById(rs)[r.allocationId := r]
  {
    ByIdKeys(rs);
    assert forall i :: 0 <= i < |rs| ==> rs[i] in rs;
    assert (rs + [r])[..|rs|] == rs;
  }

  lemma {:induction false} SelectUnique(rs: seq<Record>, ids: set<nat>, wanted: bool)
    requires UniqueIds(rs)
    ensures UniqueIds(Select(rs, ids, wanted))
    ensures ById(Select(rs, ids, wanted)) == Restrict(ById(rs), ids, wanted)
  {
    hide UniqueIds, Restrict;
    if rs == [] {
      NothingToSelect(ids, wanted);
    } else {
      var rest, last := rs[..|rs| - 1], rs[|rs| - 1];
      LastIsNew(rs);
      SelectUnique(rest, ids, wanted);
      RestrictWith(ById(rest), last.allocationId, last, ids, wanted);
      if (last.allocationId in ids) == wanted { UniqueWith(Select(rest, ids, wanted), last); }
    }
  }

  lemma NothingToSelect(ids: set<nat>, wanted: bool)
    ensures UniqueIds([]) && Restrict(map[], ids, wanted) == map[]
  {
  }

  lemma RestrictWithout(m: Table, id: nat, ids: set<nat>, wanted: bool)
    requires id in m
    ensures Restrict(m - {id}, ids, wanted) == Restrict(m, ids, wanted) - {id}
    ensures id in Restrict(m, ids, wanted) <==> (id in ids) == wanted
    ensures id in Restrict(m, ids, wanted) ==> Restrict(m, ids, wanted)[id] == m[id]
    ensures id !in Restrict(m, ids, wanted) ==> Restrict(m, ids, wanted) - {id} == Restrict(m, ids, wanted)
  {
  }

  lemma {:induction false} SumSplits(m: Table, ids: set<nat>)
    ensures SumRequested(m) == SumRequested(Restrict(m, ids, true)) + SumRequested(Restrict(m, ids, false))
    ensures |m| == |Restrict(m, ids, true)| + |Restrict(m, ids, false)|
    decreases |m|
  {
    hide SumRequested, Restrict;
    if m == map[] {
      EmptySums();
      NothingToSelect(ids, true);
      NothingToSelect(ids, false);
    } else {
      var id :| id in m;
      OneLess(m, id);
      SumWithout(m, id);
      SumSplits(m - {id}, ids);
      RestrictWithout(m, id, ids, true);
      RestrictWithout(m, id, ids, false);
      OneLess(Restrict(m, ids, id in ids), id);
      SumWithout(Restrict(m, ids, id in ids), id);
    }
  }

  /** One id, one record. */
  ghost predicate Agree(a: seq<Record>, b: seq<Record>) {
    forall r, q :: r in a && q in b && r.allocationId == q.allocationId ==> r == q
  }

  lemma {:induction false} LookupIsMember(rs: seq<Record>, id: nat)
    requires id in ById(rs)
    ensures ById(rs)[id] in rs && ById(rs)[id].allocationId == id
  {
    if rs[|rs| - 1].allocationId != id { LookupIsMember(rs[..|rs| - 1], id); }
  }

  /** What persists is the same seen from either snapshot. */
  lemma SharedPart(a: seq<Record>, b: seq<Record>)
    requires Agree(a, b)
    ensures Restrict(ById(a), Ids(b), true) == Restrict(ById(b), Ids(a), true)
  {
    ByIdKeys(a);
    ByIdKeys(b);
    forall id | id in ById(a) && id in ById(b) ensures ById(a)[id] == ById(b)[id] {
      LookupIsMember(a, id);
      LookupIsMember(b, id);
    }
  }

  /** What came minus what went is the growth, in allocations and in bytes. */
  lemma GrowthIsNewMinusFreed(before: seq<Record>, after: seq<Record>)
    requires UniqueIds(before) && UniqueIds(after) && Agree(before, after)
    ensures var added, freed := Select(after, Ids(before), false), Select(before, Ids(after), false);
      && |added| - |freed| == |after| - |before|
      && Bytes(added) - Bytes(freed) == Bytes(after) - Bytes(before)
  {
    hide SumRequested, ById, Ids, Select, UniqueIds, Bytes;
    var added, freed := Select(after, Ids(before), false), Select(before, Ids(after), false);
    SelectUnique(after, Ids(before), false);
    SelectUnique(before, Ids(after), false);
    BytesById(before);
    BytesById(after);
    BytesById(added);
    BytesById(freed);
    SumSplits(ById(before), Ids(after));
    SumSplits(ById(after), Ids(before));
    SharedPart(before, after);
    assert ById(added) == Restrict(ById(after), Ids(before), false);
    assert ById(freed) == Restrict(ById(before), Ids(after), false);
  }

  /** A snapshot whose counters are those of its records, as between calls. */
  ghost predicate Exact(s: HeapSnapshot) {
    UniqueIds(s.records) && s.current == Bytes(s.records) < W64 && s.active == |s.records| < W64
  }

  /** Exactly one of the two counters has its sign bit set. */
  predicate SignsDiffer(x: nat, y: nat) { x < W64 / 2 <==> y >= W64 / 2 }

  /**
   For exact snapshots the net byte count is defined and equals what came minus what went, unless
   exactly one of the two totals has its sign bit set. Then it is undefined where the true difference
   fits in 64 bits, and wrong where it does not. Likewise for the count of allocations.
   */
  lemma NetIsExactIff(before: HeapSnapshot, after: HeapSnapshot)
    requires Exact(before) && Exact(after) && Agree(before.records, after.records)
    ensures var added := Select(after.records, Ids(before.records), false);
      var freed := Select(before.records, Ids(after.records), false);
      var bytes, count := Bytes(added) - Bytes(freed), |added| - |freed|;
      && (Delta(after.current, before.current) == Some(bytes) <==> !SignsDiffer(after.current, before.current))
      && (Delta(after.current, before.current) == None
          <==> SignsDiffer(after.current, before.current) && FitsSigned(bytes))
      && (Delta(after.active, before.active) == Some(count) <==> !SignsDiffer(after.active, before.active))
      && (Delta(after.active, before.active) == None
          <==> SignsDiffer(after.active, before.active) && FitsSigned(count))
  {
    hide Ids, Select, Bytes, UniqueIds;
    GrowthIsNewMinusFreed(before.records, after.records);
  }

  // ---------- successive differences

  /** The ids that `to` has and `from` has not. */
  function Came(from: seq<Record>, to: seq<Record>): set<nat> { Ids(Select(to, Ids(from), false)) }

  lemma CameIs(from: seq<Record>, to: seq<Record>)
    ensures Came(from, to) == Ids(to) - Ids(from)
  {
    SelectPartitions(to, Ids(from));
  }

  /**
   Two successive differences compose to the difference of the outer snapshots exactly when nothing
   that is in both outer snapshots is missing from the middle one.
   */
  lemma DiffsComposeIff(a: seq<Record>, b: seq<Record>, c: seq<Record>)
    ensures Came(a, c) == Came(a, b) - Came(c, b) + Came(b, c) <==> Ids(a) * Ids(c) <= Ids(b)
    ensures Came(c, a) == Came(b, a) + (Came(c, b) - Came(a, b)) <==> Ids(a) * Ids(c) <= Ids(b)
  {
    hide Came;
    CameIs(a, b);
    CameIs(a, c);
    CameIs(b, c);
    CameIs(c, b);
    CameIs(c, a);
    CameIs(b, a);
    assert forall id :: id in Ids(a) && id in Ids(c) && id !in Ids(b) ==>
      id !in Came(a, c) && id in Came(b, c) && id !in Came(c, a) && id in Came(b, a);
  }

  // ---------- snapshots of a run

  /** `rs` is the tracker's contents in some order, `keys` naming the pointer each came from. */
  ghost predicate Shows(w: World, rs: seq<Record>, keys: seq<nat>)
    requires Shaped(w.shards)
  {
    Enumerates(rs, keys, Flat(w.shards))
  }

  lemma {:induction false} EnumeratedBytes(rs: seq<Record>, keys: seq<nat>, m: Table)
    requires Enumerates(rs, keys, m)
    ensures Bytes(rs) == SumRequested(m) && |rs| == |m|
    decreases |rs|
  {
    hide SumRequested;
    var n := |rs| - 1;
    if n < 0 {
      assert forall p :: p in m ==> p in keys;
      EmptySums();
      assert m == map[];
    } else {
      EnumeratedRest(rs, keys, m);
      EnumeratedBytes(rs[..n], keys[..n], m - {keys[n]});
      SumWithout(m, keys[n]);
      OneLess(m, keys[n]);
    }
  }

  lemma EnumeratedRest(rs: seq<Record>, keys: seq<nat>, m: Table)
    requires Enumerates(rs, keys, m) && |rs| > 0
    ensures var n := |rs| - 1;
      keys[n] in m && rs[n] == m[keys[n]] && Enumerates(rs[..n], keys[..n], m - {keys[n]})
  {
    var n := |rs| - 1;
    assert keys == keys[..n] + [keys[n]];
  }

  /** What a snapshot shows is what is live, each id once. */
  lemma ShownIsLive(g: Setting, w: World, rs: seq<Record>, keys: seq<nat>)
    requires ConcurrentProofs.Inv(g, w) && w.past.drawn < W64 - 1 && Shows(w, rs, keys)
    ensures UniqueIds(rs) && forall r :: r in rs <==> LiveId(w, r.allocationId, r)
  {
    hide Flat, ShardValid, ShardIndex, LiveOk, PeakOk, Accounts, Matched, Claims;
    forall i, j | 0 <= i < j < |rs| ensures rs[i].allocationId != rs[j].allocationId {
      assert Issued(Flat(w.shards), w.threads, Slot.Kept(keys[i])) == Wrappers.Some(rs[i].allocationId);
      assert Issued(Flat(w.shards), w.threads, Slot.Kept(keys[j])) == Wrappers.Some(rs[j].allocationId);
    }
    forall r ensures r in rs <==> LiveId(w, r.allocationId, r) {
      if r in rs {
        var i :| 0 <= i < |rs| && rs[i] == r;
        assert keys[i] in Flat(w.shards);
      }
      if LiveId(w, r.allocationId, r) {
        var i :| 0 <= i < |keys| && keys[i] == r.userPtr;
        assert rs[i] == r;
      }
    }
  }

  /** A snapshot taken between calls is exact. */
  lemma QuiescentSnapshotIsExact(g: Setting, run: seq<World>, moves: seq<Move>, k: nat, rs: seq<Record>, keys: seq<nat>)
    requires IsRun(g, run, moves) && k < |run| && Quiescent(run[k]) && run[k].past.drawn < W64 - 1
    requires Shaped(run[k].shards) && Shows(run[k], rs, keys)
    ensures Exact(HeapSnapshot(rs, run[k].counters.current, run[k].counters.active))
  {
    hide IsRun, ConcurrentProofs.Inv, Flat, UniqueIds, Bytes, SumRequested, Quiescent, InFlight, LiveId;
    RunIsGood(g, run, moves, k);
    ShownIsLive(g, run[k], rs, keys);
    EnumeratedBytes(rs, keys, Flat(run[k].shards));
    QuiescentStateIsExact(g, run, moves, k);
    CountersAccountForRecords(g, run, moves, k);
  }

  // ---------- snapshots that scan shard after shard

  ghost predicate InShard(sh: Shard, r: Record) {
    exists p :: p in sh.records && sh.records[p] == r
  }

  /** The parts one after another. */
  function Joined(parts: seq<Part>): seq<Record> {
    if parts == [] then [] else Joined(parts[..|parts| - 1]) + parts[|parts| - 1].records
  }

  lemma {:induction false} JoinedHas(parts: seq<Part>, r: Record)
    ensures r in Joined(parts) <==> exists s :: 0 <= s < |parts| && r in parts[s].records
  {
    if parts != [] {
      var rest, last := parts[..|parts| - 1], |parts| - 1;
      JoinedHas(rest, r);
      if s :| 0 <= s < last && r in rest[s].records { assert r in parts[s].records; }
      if s :| 0 <= s < last && r in parts[s].records { assert r in rest[s].records; }
    }
  }

  /** What a shard holds is live under its own pointer, and what is live is in its pointer's shard. */
  lemma ShardHolds(g: Setting, w: World, s: nat, r: Record)
    requires ConcurrentProofs.Inv(g, w) && s < SHARD_COUNT
    ensures Shaped(w.shards)
    ensures InShard(w.shards[s], r) <==> LiveId(w, r.allocationId, r) && ShardIndex(r.userPtr) == s
  {
    hide ShardIndex, LiveOk, PeakOk, Accounts, Matched, Claims, IdsOk, PlainOk, Flat;
    assert TrackerSpec.Valid(w.shards);
    assert ShardValid(w.shards[s], s);
    FlatLookup(w.shards, r.userPtr);
    if InShard(w.shards[s], r) {
      var p :| p in w.shards[s].records && w.shards[s].records[p] == r;
      FlatLookup(w.shards, p);
    }
  }

  lemma PartHas(run: seq<World>, visit: seq<nat>, parts: seq<Part>, s: nat, r: Record)
    requires Scans(run, visit, parts) && s < SHARD_COUNT
    ensures r in parts[s].records <==> InShard(run[visit[s]].shards[s], r)
  {
    EnumerationIsAll(parts[s].records, parts[s].keys, run[visit[s]].shards[s].records);
  }

  lemma ScansGoForward(run: seq<World>, visit: seq<nat>, parts: seq<Part>, s: nat)
    requires Scans(run, visit, parts) && s < SHARD_COUNT
    ensures |visit| == |parts| == SHARD_COUNT && visit[0] <= visit[s] <= visit[SHARD_COUNT - 1] < |run|
    ensures Shaped(run[visit[s]].shards)
  {
  }

  /** A record that two scans show was in its shard when a scan between them read it. */
  lemma ScannedBetween(g: Setting, run: seq<World>, moves: seq<Move>, va: seq<nat>, vb: seq<nat>, vc: seq<nat>,
                       a: seq<Part>, b: seq<Part>, c: seq<Part>, r: Record, q: Record)
    requires IsRun(g, run, moves) && Scans(run, va, a) && Scans(run, vb, b) && Scans(run, vc, c)
    requires va[SHARD_COUNT - 1] <= vb[0] && vb[SHARD_COUNT - 1] <= vc[0]
    requires run[vc[SHARD_COUNT - 1]].past.drawn < W64 - 1
    requires r in Joined(a) && q in Joined(c) && r.allocationId == q.allocationId
    ensures r == q && r in Joined(b)
  {
    hide IsRun, LiveId, ConcurrentProofs.Inv, Joined, InShard, ShardIndex, Scans;
    ScansGoForward(run, va, a, 0);
    ScansGoForward(run, vb, b, 0);
    ScansGoForward(run, vc, c, 0);
    JoinedHas(a, r);
    JoinedHas(c, q);
    var s :| 0 <= s < SHARD_COUNT && r in a[s].records;
    var t :| 0 <= t < SHARD_COUNT && q in c[t].records;
    ScansGoForward(run, va, a, s);
    ScansGoForward(run, vb, b, s);
    ScansGoForward(run, vc, c, t);
    PartHas(run, va, a, s, r);
    PartHas(run, vb, b, s, r);
    PartHas(run, vc, c, t, q);
    RunIsGood(g, run, moves, va[s]);
    RunIsGood(g, run, moves, vb[s]);
    RunIsGood(g, run, moves, vc[t]);
    ShardHolds(g, run[va[s]], s, r);
    ShardHolds(g, run[vb[s]], s, r);
    ShardHolds(g, run[vc[t]], t, q);
    RetiredForGood(g, run, moves, vc[t], vc[SHARD_COUNT - 1]);
    LiveWithoutGaps(g, run, moves, va[s], vb[s], vc[t], r.allocationId, r, q);
    JoinedHas(b, r);
  }

  /**
   Three snapshots taken one after another while other threads run, each reading shard after shard:
   ids do not come back, so their differences compose, and an id in the outer two means one record.
   */
  lemma ScanDiffsCompose(g: Setting, run: seq<World>, moves: seq<Move>, va: seq<nat>, vb: seq<nat>, vc: seq<nat>,
                         a: seq<Part>, b: seq<Part>, c: seq<Part>)
    requires IsRun(g, run, moves) && Scans(run, va, a) && Scans(run, vb, b) && Scans(run, vc, c)
    requires va[SHARD_COUNT - 1] <= vb[0] && vb[SHARD_COUNT - 1] <= vc[0]
    requires run[vc[SHARD_COUNT - 1]].past.drawn < W64 - 1
    ensures var x, y, z := Joined(a), Joined(b), Joined(c);
      && Agree(x, z)
      && Came(x, z) == Came(x, y) - Came(z, y) + Came(y, z)
      && Came(z, x) == Came(y, x) + (Came(z, y) - Came(x, y))
  {
    hide IsRun, Came, Joined, Scans;
    var x, y, z := Joined(a), Joined(b), Joined(c);
    forall r, q | r in x && q in z && r.allocationId == q.allocationId ensures r == q && r in y {
      ScannedBetween(g, run, moves, va, vb, vc, a, b, c, r, q);
    }
    forall id | id in Ids(x) * Ids(z) ensures id in Ids(y) {
      var r :| r in x && r.allocationId == id;
      var q :| q in z && q.allocationId == id;
      assert r in y;
    }
    DiffsComposeIff(x, y, z);
  }

  // ---------- where it goes wrong

  function RecordOf(id: nat, size: nat): Record {
    Record(id, 0x1_0050, 0x1_0000, size, size + 100, 16, 0, 0, [])
  }

  /** One live allocation of 2^63 bytes is reported as a loss of as many. */
  lemma NetCanBeWrong()
    ensures var none, one := HeapSnapshot([], 0, 0), HeapSnapshot([RecordOf(1, W64 / 2)], W64 / 2, 1);
      && Exact(none) && Exact(one) && Agree(none.records, one.records)
      && Delta(one.current, none.current) == Some(-(W64 / 2))
      && Bytes(Select(one.records, Ids(none.records), false)) == W64 / 2
      && Bytes(Select(none.records, Ids(one.records), false)) == 0
  {
    var one := [RecordOf(1, W64 / 2)];
    assert one[..0] == [];
    assert Ids([]) == {};
  }

  /** An id that is missing only from the middle snapshot counts as new, though it is in both outer ones. */
  lemma DiffsNeedNotCompose()
    ensures var x := [RecordOf(1, 8)];
      Came(x, x) == {} && Came(x, []) - Came(x, []) + Came([], x) == {1}
  {
    var x := [RecordOf(1, 8)];
    CameIs(x, x);
    CameIs(x, []);
    CameIs([], x);
    assert RecordOf(1, 8) in x;
    assert Ids(x) == {1};
  }
}
