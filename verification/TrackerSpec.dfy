/**
 The sharded tracker as a value: 64 shards, each a map of live records and a ring of the most
 recently erased pointers. What it refines is one flat map.
 */
module TrackerSpec {
  import opened Words
  import opened Records

  const SHARD_COUNT: nat := 64
  const QUARANTINE_SIZE: nat := 256

  datatype Status = Success | NotFound | DoubleFreeDetected

  datatype Shard = Shard(records: Table, ring: seq<nat>, head: nat)

  type Shards = seq<Shard>

  // ---------- the shard hash

  const HASH_MULTIPLIER: nat := 0x9E3779B97F4A7C15

  /** The 16-byte cell number times an odd constant, modulo 2^64, masked to six bits. */
  function ShardIndex(p: nat): (s: nat)
    ensures s < SHARD_COUNT
  {
    ShardMask(Wrap(p / 16 * HASH_MULTIPLIER));
    And(Wrap(p / 16 * HASH_MULTIPLIER), SHARD_COUNT - 1)
  }

  lemma ShardMask(x: nat)
    ensures And(x, SHARD_COUNT - 1) == x % SHARD_COUNT
  {
    assert Pow2(6) == SHARD_COUNT;
    LowMask(x, 6);
  }

  lemma WrapThenShard(x: nat)
    ensures Wrap(x) % SHARD_COUNT == x % SHARD_COUNT
  {
    var q := x / W64;
    assert x == q * W64 + Wrap(x);
    ModuloIs(x, SHARD_COUNT, q * 0x400_0000_0000_0000 + Wrap(x) / SHARD_COUNT, Wrap(x) % SHARD_COUNT);
  }

  /** The multiplier is odd: it is 21 modulo 64. */
  lemma ShardIndexIs(p: nat)
    ensures ShardIndex(p) == 21 * (p / 16) % 64
  {
    var cell := p / 16;
    var x := cell * HASH_MULTIPLIER;
    ShardMask(Wrap(x));
    WrapThenShard(x);
    ModuloIs(x, 64, cell * (HASH_MULTIPLIER / 64) + 21 * cell / 64, 21 * cell % 64);
  }

  /** 21 is invertible modulo 64: 21 * 61 is 1 more than 64 * 20. */
  lemma TimesOdd(a: int, b: int)
    ensures 21 * a % 64 == 21 * b % 64 <==> a % 64 == b % 64
  {
    if 21 * a % 64 == 21 * b % 64 { DivideBy21(a, b, 21 * a / 64 - 21 * b / 64); }
    if a % 64 == b % 64 { SameRemainder(21 * a, 21 * b, 21 * (a / 64 - b / 64)); }
  }

  lemma SameRemainder(a: int, b: int, k: int)
    requires a == b + 64 * k
    ensures a % 64 == b % 64
  {
    ModuloIs(a, 64, b / 64 + k, b % 64);
  }

  lemma DivideBy21(a: int, b: int, k: int)
    requires 21 * a == 21 * b + 64 * k
    ensures a % 64 == b % 64
  {
    SameRemainder(a, b, 61 * k - 20 * (a - b));
  }

  /** Two addresses share a shard iff their 16-byte cell numbers agree modulo 64. */
  lemma SameShardIff(p: nat, q: nat)
    ensures ShardIndex(p) == ShardIndex(q) <==> (p / 16) % 64 == (q / 16) % 64
  {
    ShardIndexIs(p);
    ShardIndexIs(q);
    TimesOdd(p / 16, q / 16);
  }

  /** Any 64 consecutive cells occupy all 64 shards, each once. */
  lemma ConsecutiveCellsCoverShards(base: nat, s: nat)
    requires s < SHARD_COUNT
    ensures exists k: nat :: k < 64 && ShardIndex(base + 16 * k) == s
    ensures forall j: nat, k: nat :: j < k < 64 ==> ShardIndex(base + 16 * j) != ShardIndex(base + 16 * k)
  {
    hide ShardIndex;
    var cell := base / 16;
    var k := CellFor(cell, s);
    CellAt(base, k);
    assert ShardIndex(base + 16 * k) == s;
    forall i: nat, j: nat | i < j < 64 ensures ShardIndex(base + 16 * i) != ShardIndex(base + 16 * j) {
      CellAt(base, i);
      CellAt(base, j);
      TimesOdd(cell + i, cell + j);
      Different64(cell, i, j);
    }
  }

  lemma Different64(cell: nat, i: nat, j: nat)
    requires i < j < 64
    ensures (cell + i) % 64 != (cell + j) % 64
  {
  }

  lemma CellFor(cell: nat, s: nat) returns (k: nat)
    requires s < 64
    ensures k < 64 && 21 * (cell + k) % 64 == s
  {
    k := (61 * s - cell) % 64;
    SameRemainder(21 * (cell + k), s, 20 * s - 21 * ((61 * s - cell) / 64));
  }

  lemma CellAt(base: nat, k: nat)
    ensures ShardIndex(base + 16 * k) == 21 * (base / 16 + k) % 64
  {
    ShardIndexIs(base + 16 * k);
  }

  // ---------- one shard

  function Released(ring: seq<nat>, p: nat): (r: seq<nat>)
    ensures |r| == |ring|
  {
    seq(|ring|, i requires 0 <= i < |ring| => if ring[i] == p then 0 else ring[i])
  }

  function InsertShard(s: Shard, p: nat, r: Record): Shard {
    Shard(s.records[p := r], Released(s.ring, p), s.head)
  }

  function EraseShard(s: Shard, p: nat): Shard
    requires |s.ring| == QUARANTINE_SIZE
  {
    if p in s.records
    then Shard(s.records - {p}, s.ring[s.head % QUARANTINE_SIZE := p], Wrap(s.head + 1))
    else s
  }

  function EraseStatus(s: Shard, p: nat): Status {
    if p in s.records then Success else if p in s.ring then DoubleFreeDetected else NotFound
  }

  function EmptyShard(): Shard {
    Shard(map[], seq(QUARANTINE_SIZE, _ => 0), 0)
  }

  // ---------- all shards

  predicate Shaped(t: Shards) {
    |t| == SHARD_COUNT && forall s :: 0 <= s < |t| ==> |t[s].ring| == QUARANTINE_SIZE
  }

  function Empty(): (t: Shards)
    ensures Shaped(t)
  {
    seq(SHARD_COUNT, _ => EmptyShard())
  }

  function Insert(t: Shards, p: nat, r: Record): (t': Shards)
    requires Shaped(t)
    ensures Shaped(t')
  {
    if p == 0 then t else t[ShardIndex(p) := InsertShard(t[ShardIndex(p)], p, r)]
  }

  function Erase(t: Shards, p: nat): (t': Shards)
    requires Shaped(t)
    ensures Shaped(t')
  {
    if p == 0 then t else t[ShardIndex(p) := EraseShard(t[ShardIndex(p)], p)]
  }

  function StatusOf(t: Shards, p: nat): Status
    requires Shaped(t)
  {
    if p == 0 then NotFound else EraseStatus(t[ShardIndex(p)], p)
  }

  /** Every live key is in its own shard, and every quarantined pointer is dead and there once. */
  ghost predicate ShardValid(sh: Shard, s: nat) {
    && |sh.ring| == QUARANTINE_SIZE
    && (forall p :: p in sh.records ==> p != 0 && ShardIndex(p) == s)
    && (forall i :: 0 <= i < |sh.ring| && sh.ring[i] != 0 ==> sh.ring[i] !in sh.records && ShardIndex(sh.ring[i]) == s)
    && (forall i, j :: 0 <= i < j < |sh.ring| && sh.ring[i] != 0 ==> sh.ring[i] != sh.ring[j])
  }

  ghost predicate Valid(t: Shards) {
    Shaped(t) && forall s :: 0 <= s < |t| ==> ShardValid(t[s], s)
  }

  function Keys(t: Shards): set<nat> {
    set s, p | 0 <= s < |t| && p in t[s].records :: p
  }

  /** The one map the shards stand for. */
  function Flat(t: Shards): Table
    requires Shaped(t)
  {
    map p | p in Keys(t) && p in t[ShardIndex(p)].records :: t[ShardIndex(p)].records[p]
  }

  ghost predicate Quarantined(t: Shards, p: nat)
    requires Shaped(t)
  {
    p != 0 && p in t[ShardIndex(p)].ring
  }

  /** Reading one shard is reading the flat map. */
  lemma FlatLookup(t: Shards, p: nat)
    requires Valid(t)
    ensures p in Flat(t) <==> p != 0 && p in t[ShardIndex(p)].records
    ensures p in Flat(t) ==> Flat(t)[p] == t[ShardIndex(p)].records[p]
  {
  }

  lemma EmptyIsValid()
    ensures Valid(Empty()) && Flat(Empty()) == map[]
  {
  }

  lemma InsertRefines(t: Shards, p: nat, r: Record)
    requires Valid(t) && p != 0
    ensures Valid(Insert(t, p, r)) && Flat(Insert(t, p, r)) == Flat(t)[p := r]
    ensures forall q :: Quarantined(Insert(t, p, r), q) <==> Quarantined(t, q) && q != p
  {
    hide ShardIndex, Flat, ShardValid;
    InsertValid(t, p, r);
    var t' := Insert(t, p, r);
    forall q ensures q in Flat(t') <==> q in Flat(t)[p := r] {
      FlatLookup(t, q);
      FlatLookup(t', q);
    }
    forall q | q in Flat(t') ensures Flat(t')[q] == Flat(t)[p := r][q] {
      FlatLookup(t, q);
      FlatLookup(t', q);
    }
    forall q | q != 0 ensures Quarantined(t', q) <==> Quarantined(t, q) && q != p {
      ReleasedContents(t[ShardIndex(p)].ring, p, q);
    }
  }

  lemma InsertValid(t: Shards, p: nat, r: Record)
    requires Valid(t) && p != 0
    ensures Valid(Insert(t, p, r))
  {
    InsertShardValid(t[ShardIndex(p)], p, r);
  }

  lemma InsertShardValid(sh: Shard, p: nat, r: Record)
    requires p != 0 && ShardValid(sh, ShardIndex(p))
    ensures ShardValid(InsertShard(sh, p, r), ShardIndex(p))
  {
    var ring := InsertShard(sh, p, r).ring;
    assert forall i :: 0 <= i < |ring| && ring[i] != 0 ==> ring[i] == sh.ring[i] && ring[i] != p;
  }

  lemma ReleasedContents(ring: seq<nat>, p: nat, q: nat)
    requires p != 0 && q != 0
    ensures q in Released(ring, p) <==> q in ring && q != p
  {
    if q in ring && q != p {
      var i :| 0 <= i < |ring| && ring[i] == q;
      assert Released(ring, p)[i] == q;
    }
  }

  lemma EraseRefines(t: Shards, p: nat)
    requires Valid(t)
    ensures Valid(Erase(t, p)) && Flat(Erase(t, p)) == Flat(t) - {p}
    ensures StatusOf(t, p) == Success <==> p in Flat(t)
    ensures StatusOf(t, p) == DoubleFreeDetected <==> p !in Flat(t) && Quarantined(t, p)
    ensures p in Flat(t) ==> Quarantined(Erase(t, p), p)
    ensures p !in Flat(t) ==> Erase(t, p) == t
  {
    hide ShardIndex, Flat, ShardValid;
    FlatLookup(t, p);
    if p in Flat(t) {
      EraseLive(t, p);
    } else {
      assert Erase(t, p) == t;
      assert Flat(t) - {p} == Flat(t);
    }
  }

  /** Erasing puts nothing in quarantine but the pointer erased, and that only if it was live. */
  lemma EraseQuarantines(t: Shards, p: nat, q: nat)
    requires Valid(t) && Quarantined(Erase(t, p), q)
    ensures Quarantined(t, q) || (q == p && p in Flat(t))
  {
    hide ShardIndex, Flat, ShardValid;
    FlatLookup(t, p);
  }

  lemma EraseLive(t: Shards, p: nat)
    requires Valid(t) && p != 0 && p in t[ShardIndex(p)].records
    ensures Valid(Erase(t, p)) && Flat(Erase(t, p)) == Flat(t) - {p} && Quarantined(Erase(t, p), p)
  {
    EraseValid(t, p);
    EraseFlat(t, p);
    assert Erase(t, p)[ShardIndex(p)].ring[t[ShardIndex(p)].head % QUARANTINE_SIZE] == p;
  }

  lemma EraseValid(t: Shards, p: nat)
    requires Valid(t) && p != 0 && p in t[ShardIndex(p)].records
    ensures Valid(Erase(t, p))
  {
    EraseShardValid(t[ShardIndex(p)], p);
  }

  lemma EraseFlat(t: Shards, p: nat)
    requires Valid(t) && Valid(Erase(t, p)) && p != 0 && p in t[ShardIndex(p)].records
    ensures Flat(Erase(t, p)) == Flat(t) - {p}
  {
    hide ShardIndex, Flat, ShardValid;
    var t' := Erase(t, p);
    forall q ensures q in Flat(t') <==> q in Flat(t) - {p} {
      FlatLookup(t, q);
      FlatLookup(t', q);
    }
    forall q | q in Flat(t') ensures Flat(t')[q] == Flat(t)[q] {
      FlatLookup(t, q);
      FlatLookup(t', q);
    }
  }

  lemma EraseShardValid(sh: Shard, p: nat)
    requires ShardValid(sh, ShardIndex(p)) && p in sh.records
    ensures ShardValid(EraseShard(sh, p), ShardIndex(p))
  {
    var sh' := EraseShard(sh, p);
    var at := sh.head % QUARANTINE_SIZE;
    assert forall i :: 0 <= i < |sh'.ring| ==> sh'.ring[i] == if i == at then p else sh.ring[i];
  }

  // ---------- size

  function SizeUpTo(t: Shards, k: nat): nat
    requires k <= |t|
  {
    if k == 0 then 0 else SizeUpTo(t, k - 1) + |t[k - 1].records|
  }

  /** Adding up the shards' sizes gives the size of the flat map. */
  lemma SizeRefines(t: Shards)
    requires Valid(t)
    ensures SizeUpTo(t, SHARD_COUNT) == |Flat(t)|
  {
    SizeOfPrefix(t, SHARD_COUNT);
    assert Flat(t).Keys == PrefixKeys(t, SHARD_COUNT);
  }

  function PrefixKeys(t: Shards, k: nat): set<nat>
    requires k <= |t|
  {
    set s, p | 0 <= s < k && p in t[s].records :: p
  }

  lemma {:induction false} SizeOfPrefix(t: Shards, k: nat)
    requires Valid(t) && k <= |t|
    ensures SizeUpTo(t, k) == |PrefixKeys(t, k)|
  {
    hide PrefixKeys, Valid;
    if k == 0 {
      assert PrefixKeys(t, 0) == {} by { NoPrefixKeys(t); }
    } else {
      SizeOfPrefix(t, k - 1);
      PrefixKeysStep(t, k);
      DisjointSizes(PrefixKeys(t, k - 1), t[k - 1].records.Keys);
    }
  }

  lemma NoPrefixKeys(t: Shards)
    ensures PrefixKeys(t, 0) == {}
  {
  }

  lemma DisjointSizes(a: set<nat>, b: set<nat>)
    requires a !! b
    ensures |a + b| == |a| + |b|
  {
  }

  lemma PrefixKeysStep(t: Shards, k: nat)
    requires Valid(t) && 0 < k <= |t|
    ensures PrefixKeys(t, k) == PrefixKeys(t, k - 1) + t[k - 1].records.Keys
    ensures PrefixKeys(t, k - 1) !! t[k - 1].records.Keys
  {
    hide ShardIndex;
    assert ShardValid(t[k - 1], k - 1);
    assert forall s :: 0 <= s < k - 1 ==> ShardValid(t[s], s);
  }

  // ---------- listing

  /** `result` lists the records of `m`, each once; `keys` names the pointer each came from. */
  ghost predicate Enumerates(result: seq<Record>, keys: seq<nat>, m: Table) {
    && |result| == |keys|
    && (forall p :: p in keys <==> p in m)
    && (forall j :: 0 <= j < |keys| ==> keys[j] in m && result[j] == m[keys[j]])
    && (forall j, k :: 0 <= j < k < |keys| ==> keys[j] != keys[k])
  }

  lemma {:induction false} EnumerationIsAll(result: seq<Record>, keys: seq<nat>, m: Table)
    requires Enumerates(result, keys, m)
    ensures |result| == |m|
    ensures forall r :: r in result <==> exists p :: p in m && m[p] == r
  {
    KeysCounted(keys, m.Keys);
    forall r | exists p :: p in m && m[p] == r ensures r in result {
      var p :| p in m && m[p] == r;
      var j :| 0 <= j < |keys| && keys[j] == p;
      assert result[j] == r;
    }
  }

  lemma {:induction false} KeysCounted(keys: seq<nat>, s: set<nat>)
    requires forall p :: p in keys <==> p in s
    requires forall j, k :: 0 <= j < k < |keys| ==> keys[j] != keys[k]
    ensures |keys| == |s|
  {
    if keys == [] {
      assert s == {};
    } else {
      var n := |keys| - 1;
      assert keys == keys[..n] + [keys[n]];
      KeysCounted(keys[..n], s - {keys[n]});
    }
  }

  lemma EnumerationsJoin(a: seq<Record>, aKeys: seq<nat>, m: Table,
                         b: seq<Record>, bKeys: seq<nat>, n: Table)
    requires Enumerates(a, aKeys, m) && Enumerates(b, bKeys, n) && m.Keys !! n.Keys
    ensures Enumerates(a + b, aKeys + bKeys, m + n)
  {
    var keys := aKeys + bKeys;
    forall j, k | 0 <= j < k < |keys| ensures keys[j] != keys[k] {
      if j < |a| <= k { assert aKeys[j] in m && bKeys[k - |a|] in n; }
    }
    forall p ensures p in keys <==> p in m + n {
      assert p in keys <==> p in aKeys || p in bKeys;
    }
    forall j | 0 <= j < |keys| ensures keys[j] in m + n && (a + b)[j] == (m + n)[keys[j]] {
      if j >= |a| { assert bKeys[j - |a|] in n; } else { assert aKeys[j] in m; }
    }
  }

  /** What the scan of one shard contributes, with the pointers that the records came from. */
  datatype Part = Part(records: seq<Record>, keys: seq<nat>)
}
