/**
 The system allocator underneath, as an assumption about its answers: what it hands out is
 16-aligned, inside memory, above the first pages, and disjoint from everything outstanding.
 Which address it picks, and whether it fails, is a parameter (`choice`): an address that does not
 meet these conditions stands for a failed call.
 */
module SystemHeap {
  import opened Words
  import opened Block

  const LOWEST: nat := 0x1_0000

  /** Even an empty block has an address of its own. */
  function Footprint(size: nat): nat { if size == 0 then 1 else size }

  predicate CanGive(live: map<nat, nat>, limit: nat, at: nat, size: nat) {
    && at % 16 == 0 && LOWEST <= at && at + Footprint(size) <= limit
    && forall r :: r in live ==> at + Footprint(size) <= r || r + Footprint(live[r]) <= at
  }

  function MallocResult(live: map<nat, nat>, limit: nat, size: nat, choice: nat): nat {
    if CanGive(live, limit, choice, size) then choice else 0
  }

  /** Outstanding blocks lie in memory and do not overlap. */
  ghost predicate LiveOk(live: map<nat, nat>, limit: nat) {
    && (forall r :: r in live ==> r % 16 == 0 && LOWEST <= r && r + Footprint(live[r]) <= limit)
    && (forall r, q :: r in live && q in live && r != q ==>
          r + Footprint(live[r]) <= q || q + Footprint(live[q]) <= r)
  }

  lemma MallocKeeps(live: map<nat, nat>, limit: nat, size: nat, choice: nat)
    requires LiveOk(live, limit)
    ensures var p := MallocResult(live, limit, size, choice);
      p != 0 ==> p !in live && LiveOk(live[p := size], limit)
  {
  }

  class Heap {
    const mem: array<Byte>
    var live: map<nat, nat>

    constructor (size: nat)
      ensures fresh(mem) && mem.Length == size && live == map[]
    {
      mem := new Byte[size](_ => 0);
      live := map[];
    }

    method Malloc(size: nat, choice: nat) returns (p: nat)
      modifies this
      ensures p == MallocResult(old(live), mem.Length, size, choice)
      ensures live == if p == 0 then old(live) else old(live)[p := size]
    {
      if CanGive(live, mem.Length, choice, size) {
        live := live[choice := size];
        return choice;
      }
      return 0;
    }

    /** `free`; a null pointer is ignored. */
    method Free(p: nat)
      requires p != 0 ==> p in live
      modifies this
      ensures live == if p == 0 then old(live) else old(live) - {p}
    {
      if p != 0 { live := live - {p}; }
    }

    /** `realloc` of a live block: the contents move along, or nothing changes and the answer is null. */
    method Realloc(p: nat, size: nat, choice: nat) returns (q: nat)
      requires p in live && p + live[p] <= mem.Length
      modifies this, mem
      ensures q == MallocResult(old(live) - {p}, mem.Length, size, choice)
      ensures live == if q == 0 then old(live) else (old(live) - {p})[q := size]
      ensures mem[..] == if q == 0 then old(mem[..]) else Put(old(mem[..]), q, old(mem[p..p + Kept(live[p], size)]))
    {
      if CanGive(live - {p}, mem.Length, choice, size) {
        var kept := Kept(live[p], size);
        var bytes := mem[p..p + kept];
        live := (live - {p})[choice := size];
        Store(mem, choice, bytes);
        return choice;
      }
      return 0;
    }
  }

  /** The bytes that survive a change of size. */
  function Kept(old_: nat, new_: nat): nat { if old_ < new_ then old_ else new_ }
}
