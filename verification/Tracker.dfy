/** The tracker as the program holds it: 64 shard objects, each with a map, a ring buffer and a head counter. */
module Tracker {
  import opened Records
  import opened Wrappers
  import opened Words
  import opened TrackerSpec

  /** The entries of the first `k` shards. */
  ghost function Prefix(t: Shards, k: nat): Table
    requires TrackerSpec.Valid(t) && k <= |t|
  {
    map p | p in Flat(t) && ShardIndex(p) < k :: Flat(t)[p]
  }

  lemma PrefixGrows(t: Shards, k: nat)
    requires TrackerSpec.Valid(t) && k < |t|
    ensures Prefix(t, k + 1) == Prefix(t, k) + t[k].records
    ensures Prefix(t, k).Keys !! t[k].records.Keys
  {
    hide ShardIndex, Flat;
    assert ShardValid(t[k], k);
    forall p ensures p in t[k].records <==> p in Flat(t) && ShardIndex(p) == k
      ensures p in t[k].records ==> Flat(t)[p] == t[k].records[p]
    {
      FlatLookup(t, p);
    }
  }

  class ShardCell {
    var records: Table
    const quarantine: array<nat>
    var head: nat

    ghost function State(): Shard
      reads this, quarantine
    {
      Shard(records, quarantine[..], head)
    }

    constructor ()
      ensures fresh(quarantine) && quarantine.Length == QUARANTINE_SIZE
      ensures State() == EmptyShard()
    {
      records, head := map[], 0;
      quarantine := new nat[QUARANTINE_SIZE](_ => 0);
      new;
      assert quarantine[..] == EmptyShard().ring;
    }

    method Insert(p: nat, r: Record)
      requires quarantine.Length == QUARANTINE_SIZE
      modifies this, quarantine
      ensures State() == InsertShard(old(State()), p, r)
    {
      ghost var ring := quarantine[..];
      for i := 0 to quarantine.Length
        invariant records == old(records) && head == old(head)
        invariant forall j :: 0 <= j < quarantine.Length ==>
          quarantine[j] == if j < i && ring[j] == p then 0 else ring[j]
      {
        if quarantine[i] == p {
          quarantine[i] := 0;
        }
      }
      assert quarantine[..] == Released(ring, p);
      records := records[p := r];
    }

    /** Erases `p` and hands out its record, or says why it is not there. */
    method Erase(p: nat) returns (status: Status, found: Option<Record>)
      requires quarantine.Length == QUARANTINE_SIZE
      modifies this, quarantine
      ensures State() == EraseShard(old(State()), p)
      ensures status == EraseStatus(old(State()), p)
      ensures found == if p in old(records) then Some(old(records)[p]) else None
    {
      if p in records {
        found := Some(records[p]);
        records := records - {p};
        quarantine[head % QUARANTINE_SIZE] := p;
        head := Wrap(head + 1);
        return Success, found;
      }
      for i := 0 to quarantine.Length
        invariant p !in quarantine[..i]
      {
        if quarantine[i] == p {
          assert p == quarantine[..][i];
          return DoubleFreeDetected, None;
        }
      }
      assert quarantine[..quarantine.Length] == quarantine[..];
      return NotFound, None;
    }

    /** The shard's records in some order; `keys` names the pointer each came from. */
    method CopyOut() returns (part: seq<Record>, ghost keys: seq<nat>)
      ensures Enumerates(part, keys, records)
    {
      part, keys := [], [];
      var rest := records.Keys;
      while rest != {}
        invariant rest <= records.Keys
        invariant |part| == |keys|
        invariant forall p :: p in keys <==> p in records.Keys - rest
        invariant forall j :: 0 <= j < |keys| ==> keys[j] in records && part[j] == records[keys[j]]
        invariant forall j, k :: 0 <= j < k < |keys| ==> keys[j] != keys[k]
      {
        var p :| p in rest;
        assert p !in keys;
        part, keys := part + [records[p]], keys + [p];
        rest := rest - {p};
      }
    }

    method Clear()
      requires quarantine.Length == QUARANTINE_SIZE
      modifies this, quarantine
      ensures State() == EmptyShard()
    {
      records, head := map[], 0;
      forall i | 0 <= i < quarantine.Length { quarantine[i] := 0; }
      assert quarantine[..] == EmptyShard().ring;
    }
  }

  class ShardedTracker {
    const cells: array<ShardCell>
    ghost const Repr: set<object>

    /** The shards and their rings are 64 distinct pairs of objects. */
    ghost predicate Separate()
      reads this, Repr
    {
      && this in Repr && cells in Repr
      && cells.Length == SHARD_COUNT
      && (forall i :: 0 <= i < SHARD_COUNT ==>
            && cells[i] in Repr && cells[i].quarantine in Repr
            && cells[i].quarantine.Length == QUARANTINE_SIZE)
      && (forall i, j :: 0 <= i < j < SHARD_COUNT ==>
            cells[i] != cells[j] && cells[i].quarantine != cells[j].quarantine)
    }

    ghost function State(): (t: Shards)
      requires Separate()
      reads this, Repr
      ensures Shaped(t)
    {
      seq(SHARD_COUNT, i requires 0 <= i < SHARD_COUNT && Separate() reads this, Repr => cells[i].State())
    }

    ghost predicate Valid()
      reads this, Repr
    {
      Separate() && TrackerSpec.Valid(State())
    }

    /** The map of live allocations. */
    ghost function Contents(): Table
      requires Separate()
      reads this, Repr
    {
      Flat(State())
    }

    constructor ()
      ensures Valid() && fresh(Repr) && State() == Empty()
    {
      var first := new ShardCell();
      var all := new ShardCell[SHARD_COUNT](_ => first);
      ghost var owned: set<object> := {all, first, first.quarantine};
      for i := 1 to SHARD_COUNT
        invariant fresh(owned) && all in owned && fresh(all)
        invariant forall j :: 0 <= j < i ==>
          && all[j] in owned && all[j].quarantine in owned && fresh(all[j]) && fresh(all[j].quarantine)
          && all[j].quarantine.Length == QUARANTINE_SIZE && all[j].State() == EmptyShard()
        invariant forall j, k :: 0 <= j < k < i ==> all[j] != all[k] && all[j].quarantine != all[k].quarantine
      {
        var cell := new ShardCell();
        all[i] := cell;
        owned := owned + {cell, cell.quarantine};
      }
      cells := all;
      Repr := {this} + owned;
      new;
      EmptyIsValid();
      assert State() == Empty();
    }

    method Insert(p: nat, r: Record)
      requires Valid()
      modifies Repr
      ensures Valid() && State() == TrackerSpec.Insert(old(State()), p, r)
      ensures Contents() == if p == 0 then old(Contents()) else old(Contents())[p := r]
    {
      if p == 0 { return; }
      ghost var t := State();
      var idx := ShardIndex(p);
      cells[idx].Insert(p, r);
      assert State() == TrackerSpec.Insert(t, p, r);
      InsertRefines(t, p, r);
    }

    method Erase(p: nat) returns (status: Status, found: Option<Record>)
      requires Valid()
      modifies Repr
      ensures Valid() && State() == TrackerSpec.Erase(old(State()), p)
      ensures status == StatusOf(old(State()), p)
      ensures Contents() == old(Contents()) - {p}
      ensures found == if p in old(Contents()) then Some(old(Contents())[p]) else None
    {
      hide ShardIndex, Flat, ShardValid;
      ghost var t := State();
      EraseRefines(t, p);
      FlatLookup(t, p);
      if p == 0 { return NotFound, None; }
      var idx := ShardIndex(p);
      status, found := cells[idx].Erase(p);
      assert State() == TrackerSpec.Erase(t, p);
    }

    method Find(p: nat) returns (found: Option<Record>)
      requires Valid()
      ensures found == if p in Contents() then Some(Contents()[p]) else None
    {
      FlatLookup(State(), p);
      if p == 0 { return None; }
      var idx := ShardIndex(p);
      if p in cells[idx].records { return Some(cells[idx].records[p]); }
      return None;
    }

    method Size() returns (n: nat)
      requires Valid()
      ensures n == |Contents()|
    {
      n := 0;
      for i := 0 to SHARD_COUNT
        invariant n == SizeUpTo(State(), i)
      {
        n := n + |cells[i].records|;
      }
      SizeRefines(State());
    }

    method Clear()
      requires Valid()
      modifies Repr
      ensures Valid() && State() == Empty() && Contents() == map[]
    {
      for i := 0 to SHARD_COUNT
        invariant Separate()
        invariant forall j :: 0 <= j < i ==> cells[j].State() == EmptyShard()
      {
        cells[i].Clear();
      }
      assert State() == Empty();
      EmptyIsValid();
    }

    /** Copies the records out shard by shard; `keys` names the pointer each came from. */
    method SnapshotAll() returns (result: seq<Record>, ghost keys: seq<nat>)
      requires Valid()
      ensures Enumerates(result, keys, Contents())
      ensures |result| == |Contents()|
      ensures forall r :: r in result <==> exists p :: p in Contents() && Contents()[p] == r
    {
      hide ShardIndex, Flat, Prefix, Enumerates, TrackerSpec.Valid;
      result, keys := [], [];
      ghost var t := State();
      EmptyPrefix(t);
      for i := 0 to SHARD_COUNT
        invariant Enumerates(result, keys, Prefix(t, i))
      {
        var part, partKeys := cells[i].CopyOut();
        PrefixGrows(t, i);
        EnumerationsJoin(result, keys, Prefix(t, i), part, partKeys, t[i].records);
        result, keys := result + part, keys + partKeys;
      }
      WholePrefix(t);
      EnumerationIsAll(result, keys, Flat(t));
    }
  }

  lemma EmptyPrefix(t: Shards)
    requires TrackerSpec.Valid(t)
    ensures Enumerates([], [], Prefix(t, 0))
  {
  }

  lemma WholePrefix(t: Shards)
    requires TrackerSpec.Valid(t)
    ensures Prefix(t, SHARD_COUNT) == Flat(t)
  {
    hide Flat;
  }
}
