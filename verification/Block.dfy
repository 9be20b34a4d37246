/**
 The bytes of one tracked block: how it is initialised, found again from its user address,
 checked and poisoned. Memory is a byte array; an address is an index into it, and 0 is null.
 */
module Block {
  import opened Words
  import opened Wrappers
  import opened Layout

  const LIVE_MAGIC: nat := 0xDEADBEEFCAFEBABE
  const FOOTER_MAGIC: nat := 0xBAADF00D5EADC0DE
  const FREED_MAGIC: nat := 0xDEADDEADDEADDEAD

  datatype Corruption = NoCorruption | HeaderCorrupted | FooterCorrupted | DoubleFree | UntrackedPointer

  datatype Header = Header(
    magic: nat, allocationId: nat, requested: nat, total: nat, userOffset: nat,
    alignment: nat, tag: nat, hasCanary: bool, threadId: nat)
  {
    predicate Fits() {
      && magic < W64 && allocationId < W64 && requested < W64 && total < W64 && userOffset < W64
      && alignment < W64 && tag < W64 && threadId < W32
    }
  }

  // ---------- words in memory

  /** `m` with `bytes` stored at `at`. */
  function Put(m: seq<Byte>, at: nat, bytes: seq<Byte>): (r: seq<Byte>)
    requires at + |bytes| <= |m|
    ensures |r| == |m|
  {
    seq(|m|, i requires 0 <= i < |m| => if at <= i < at + |bytes| then bytes[i - at] else m[i])
  }

  function Word(m: seq<Byte>, at: nat, n: nat): nat
    requires at + n <= |m|
  {
    LeValue(m[at..at + n])
  }

  lemma PutAppend(m: seq<Byte>, at: nat, x: seq<Byte>, y: seq<Byte>)
    requires at + |x| + |y| <= |m|
    ensures Put(Put(m, at, x), at + |x|, y) == Put(m, at, x + y)
  {
  }

  lemma PutReads(m: seq<Byte>, at: nat, x: seq<Byte>, from: nat, n: nat)
    requires at + |x| <= |m| && from + n <= |m|
    ensures at <= from && from + n <= at + |x| ==> Put(m, at, x)[from..from + n] == x[from - at..from - at + n]
    ensures from == at && n == |x| ==> Put(m, at, x)[from..from + n] == x
    ensures from + n <= at || at + |x| <= from ==> Put(m, at, x)[from..from + n] == m[from..from + n]
  {
    hide Put;
    var read := Put(m, at, x)[from..from + n];
    forall k | 0 <= k < n
      ensures at <= from + k < at + |x| ==> read[k] == x[from + k - at]
      ensures !(at <= from + k < at + |x|) ==> read[k] == m[from + k]
    {
      PutByte(m, at, x, from + k);
    }
    if at <= from && from + n <= at + |x| {
      forall k | 0 <= k < n ensures read[k] == x[from - at..from - at + n][k] {}
      assert read == x[from - at..from - at + n];
      if from == at && n == |x| { assert x[0..n] == x; }
    }
    if from + n <= at || at + |x| <= from {
      forall k | 0 <= k < n ensures read[k] == m[from..from + n][k] {}
      assert read == m[from..from + n];
    }
  }

  lemma PutByte(m: seq<Byte>, at: nat, x: seq<Byte>, i: nat)
    requires at + |x| <= |m| && i < |m|
    ensures Put(m, at, x)[i] == if at <= i < at + |x| then x[i - at] else m[i]
  {
  }

  method Store(mem: array<Byte>, at: nat, bytes: seq<Byte>)
    requires at + |bytes| <= mem.Length
    modifies mem
    ensures mem[..] == Put(old(mem[..]), at, bytes)
  {
    forall k | 0 <= k < |bytes| { mem[at + k] := bytes[k]; }
  }

  // ---------- the header

  function CanaryByte(on: bool): Byte { if on then 1 else 0 }

  /** The 64 bytes of a header, field by field. */
  function HeaderBytes(h: Header): (s: seq<Byte>)
    ensures |s| == HEADER_SIZE
  {
    LeBytes(h.magic, 8) + LeBytes(h.allocationId, 8) + LeBytes(h.requested, 8) + LeBytes(h.total, 8)
      + LeBytes(h.userOffset, 8) + LeBytes(h.alignment, 8) + LeBytes(h.tag, 8)
      + [CanaryByte(h.hasCanary), 0, 0, 0] + LeBytes(h.threadId, 4)
  }

  function Magic(m: seq<Byte>, raw: nat): nat
    requires raw + HEADER_SIZE <= |m|
  { Word(m, raw, 8) }

  function RequestedAt(m: seq<Byte>, raw: nat): nat
    requires raw + HEADER_SIZE <= |m|
  { Word(m, raw + 16, 8) }

  function UserOffsetAt(m: seq<Byte>, raw: nat): nat
    requires raw + HEADER_SIZE <= |m|
  { Word(m, raw + 32, 8) }

  function HasCanaryAt(m: seq<Byte>, raw: nat): bool
    requires raw + HEADER_SIZE <= |m|
  { m[raw + 56] != 0 }

  function FooterStart(m: seq<Byte>, raw: nat): nat
    requires raw + HEADER_SIZE <= |m|
  { raw + UserOffsetAt(m, raw) + RequestedAt(m, raw) }

  // ---------- the red zone

  /** A 64-bit magic value repeated over `n` bytes, the last copy cut short. */
  function Pattern(magic: nat, n: nat): (s: seq<Byte>)
    ensures |s| == n
  {
    seq(n, j requires 0 <= j < n => LeBytes(magic, 8)[j % 8])
  }

  /** The `n` bytes at `start` all show the magic value. */
  ghost predicate Shows(m: seq<Byte>, start: nat, n: nat, magic: nat)
    requires start + n <= |m|
  {
    forall j :: 0 <= j < n ==> m[start + j] == Pattern(magic, n)[j]
  }

  ghost predicate FooterIntact(m: seq<Byte>, start: nat, footer: nat)
    requires start + footer <= |m|
  {
    Shows(m, start, footer, FOOTER_MAGIC)
  }

  /** Writes a magic value over a footer in 8-byte steps with a partial last chunk. */
  method FillFooter(mem: array<Byte>, start: nat, footer: nat, magic: nat)
    requires start + footer <= mem.Length
    modifies mem
    ensures mem[..] == Put(old(mem[..]), start, Pattern(magic, footer))
  {
    var i := 0;
    while i < footer
      invariant i % 8 == 0 && i < footer + 8
      invariant mem[..] == Put(old(mem[..]), start, Pattern(magic, if i < footer then i else footer))
    {
      var copyLen := if footer - i < 8 then footer - i else 8;
      Store(mem, start + i, LeBytes(magic, 8)[..copyLen]);
      assert Pattern(magic, i) + LeBytes(magic, 8)[..copyLen] == Pattern(magic, i + copyLen);
      PutAppend(old(mem[..]), start, Pattern(magic, i), LeBytes(magic, 8)[..copyLen]);
      i := i + 8;
    }
  }

  // ---------- init_block

  /** Stands for the address of the text "General". */
  const GENERAL: nat := 1

  /** A block without a tag is labelled with the general one. */
  function HeaderTag(tag: nat): nat { if tag != 0 then tag else GENERAL }

  function InitialHeader(raw: nat, requested: nat, alignment: nat, footer: nat, id: nat, tag: nat,
                         canary: bool, threadId: nat): Header
    requires raw + MaxOffset(alignment) <= W64
  {
    UserAddressInSpan(raw, alignment);
    var offset := UserAddress(raw, alignment) - raw;
    Header(LIVE_MAGIC, id, requested, offset + requested + (if canary then footer else 0), offset,
           EffectiveAlignment(alignment), HeaderTag(tag), canary, threadId)
  }

  /** Memory after a block with header `h` was laid out at `raw`. */
  function Initialised(m: seq<Byte>, raw: nat, h: Header, footer: nat): (r: seq<Byte>)
    requires h.userOffset >= HEADER_SIZE + LINK_SIZE
    requires raw + h.userOffset + h.requested + footer <= |m|
    ensures |r| == |m|
  {
    var user := raw + h.userOffset;
    var linked := Put(Put(m, raw, HeaderBytes(h)), user - LINK_SIZE, LeBytes(h.userOffset % W32, LINK_SIZE));
    if h.hasCanary && footer >= 8 then Put(linked, user + h.requested, Pattern(FOOTER_MAGIC, footer)) else linked
  }

  method InitBlock(mem: array<Byte>, raw: nat, requested: nat, alignment: nat, footer: nat, id: nat, tag: nat,
                   canary: bool, threadId: nat) returns (user: nat)
    requires mem.Length <= W64
    requires raw != 0 ==> raw + TrueTotal(requested, alignment, footer) <= mem.Length
    modifies mem
    ensures raw == 0 ==> user == 0 && mem[..] == old(mem[..])
    ensures raw != 0 ==>
      && raw + MaxOffset(alignment) <= W64
      && var h := InitialHeader(raw, requested, alignment, footer, id, tag, canary, threadId);
      && user == UserAddress(raw, alignment) == raw + h.userOffset
      && h.userOffset >= HEADER_SIZE + LINK_SIZE
      && user + requested + footer <= mem.Length
      && mem[..] == Initialised(old(mem[..]), raw, h, footer)
  {
    if raw == 0 { return 0; }
    UserAddressInSpan(raw, alignment);
    var h := InitialHeader(raw, requested, alignment, footer, id, tag, canary, threadId);
    user := raw + h.userOffset;
    StoreBlock(mem, raw, h, footer);
  }

  method StoreBlock(mem: array<Byte>, raw: nat, h: Header, footer: nat)
    requires h.userOffset >= HEADER_SIZE + LINK_SIZE
    requires raw + h.userOffset + h.requested + footer <= mem.Length
    modifies mem
    ensures mem[..] == Initialised(old(mem[..]), raw, h, footer)
  {
    var user := raw + h.userOffset;
    StoreHeader(mem, raw, h);
    Store(mem, user - LINK_SIZE, LeBytes(h.userOffset % W32, LINK_SIZE));
    if h.hasCanary && footer >= 8 {
      FillFooter(mem, user + h.requested, footer, FOOTER_MAGIC);
    }
  }

  /** The header's fields, stored one after another. */
  method StoreHeader(mem: array<Byte>, raw: nat, h: Header)
    requires raw + HEADER_SIZE <= mem.Length
    modifies mem
    ensures mem[..] == Put(old(mem[..]), raw, HeaderBytes(h))
  {
    ghost var m := mem[..];
    Store(mem, raw, LeBytes(h.magic, 8));
    ghost var done := LeBytes(h.magic, 8);
    done := StoreNext(mem, m, raw, done, raw + 8, LeBytes(h.allocationId, 8));
    done := StoreNext(mem, m, raw, done, raw + 16, LeBytes(h.requested, 8));
    done := StoreNext(mem, m, raw, done, raw + 24, LeBytes(h.total, 8));
    done := StoreNext(mem, m, raw, done, raw + 32, LeBytes(h.userOffset, 8));
    done := StoreNext(mem, m, raw, done, raw + 40, LeBytes(h.alignment, 8));
    done := StoreNext(mem, m, raw, done, raw + 48, LeBytes(h.tag, 8));
    done := StoreNext(mem, m, raw, done, raw + 56, [CanaryByte(h.hasCanary), 0, 0, 0]);
    done := StoreNext(mem, m, raw, done, raw + 60, LeBytes(h.threadId, 4));
  }

  /** Stores the next field of a structure whose earlier fields `done` are in place. */
  method StoreNext(mem: array<Byte>, ghost m: seq<Byte>, ghost base: nat, ghost done: seq<Byte>,
                   at: nat, field: seq<Byte>) returns (ghost now: seq<Byte>)
    requires mem.Length == |m| && at == base + |done| && at + |field| <= |m|
    requires mem[..] == Put(m, base, done)
    modifies mem
    ensures now == done + field && mem[..] == Put(m, base, now)
  {
    PutAppend(m, base, done, field);
    Store(mem, at, field);
    now := done + field;
  }

  // ---------- get_header_from_user_ptr

  /** The header a user address leads back to. */
  function BackLink(m: seq<Byte>, user: nat): Option<nat>
    requires user == 0 || MAX_LINK <= user <= |m|
  {
    if user < HEADER_SIZE + LINK_SIZE then None else
    var offset := Word(m, user - LINK_SIZE, LINK_SIZE);
    if offset < HEADER_SIZE + LINK_SIZE || offset > MAX_LINK then None else
    if Magic(m, user - offset) == LIVE_MAGIC && UserOffsetAt(m, user - offset) == offset
    then Some(user - offset) else None
  }

  // ---------- verify_canary

  predicate Checkable(m: seq<Byte>, raw: nat, footer: nat) {
    raw != 0 ==>
      && raw + HEADER_SIZE <= |m|
      && (HasCanaryAt(m, raw) && footer >= 8 ==> FooterStart(m, raw) + footer <= |m|)
  }

  ghost function Verdict(m: seq<Byte>, raw: nat, footer: nat): Corruption
    requires Checkable(m, raw, footer)
  {
    if raw == 0 then UntrackedPointer
    else if Magic(m, raw) == FREED_MAGIC then DoubleFree
    else if Magic(m, raw) != LIVE_MAGIC then HeaderCorrupted
    else if HasCanaryAt(m, raw) && footer >= 8 && !FooterIntact(m, FooterStart(m, raw), footer)
      then FooterCorrupted
    else NoCorruption
  }

  method VerifyCanary(mem: array<Byte>, raw: nat, footer: nat) returns (c: Corruption)
    requires Checkable(mem[..], raw, footer)
    ensures c == Verdict(mem[..], raw, footer)
  {
    if raw == 0 { return UntrackedPointer; }
    var magic := LoadWord(mem, raw, 8);
    if magic == FREED_MAGIC { return DoubleFree; }
    if magic != LIVE_MAGIC { return HeaderCorrupted; }
    if mem[raw + 56] != 0 && footer >= 8 {
      var offset := LoadWord(mem, raw + 32, 8);
      var requested := LoadWord(mem, raw + 16, 8);
      var intact := CompareFooter(mem, raw + offset + requested, footer, FOOTER_MAGIC);
      if !intact { return FooterCorrupted; }
    }
    return NoCorruption;
  }

  /** Compares a footer with a magic value in 8-byte steps with a partial last chunk. */
  method CompareFooter(mem: array<Byte>, start: nat, footer: nat, magic: nat) returns (intact: bool)
    requires start + footer <= mem.Length
    ensures intact <==> Shows(mem[..], start, footer, magic)
  {
    ghost var m := mem[..];
    var expected := LeBytes(magic, 8);
    var i := 0;
    while i < footer
      invariant i % 8 == 0
      invariant forall j :: 0 <= j < i && j < footer ==> m[start + j] == Pattern(magic, footer)[j]
    {
      var copyLen := if footer - i < 8 then footer - i else 8;
      ChunkOfPattern(magic, footer, i, copyLen);
      if mem[start + i..start + i + copyLen] != expected[..copyLen] {
        ChunkDiffers(m, start, footer, i, copyLen, magic);
        return false;
      }
      forall j | i <= j < i + copyLen ensures m[start + j] == Pattern(magic, footer)[j] {
        assert m[start + j] == mem[start + i..start + i + copyLen][j - i];
      }
      i := i + 8;
    }
    return true;
  }

  lemma ChunkOfPattern(magic: nat, footer: nat, i: nat, copyLen: nat)
    requires i % 8 == 0 && copyLen <= 8 && i + copyLen <= footer
    ensures Pattern(magic, footer)[i..i + copyLen] == LeBytes(magic, 8)[..copyLen]
  {
  }

  lemma ChunkDiffers(m: seq<Byte>, start: nat, footer: nat, i: nat, copyLen: nat, magic: nat)
    requires start + footer <= |m| && i + copyLen <= footer
    requires m[start + i..start + i + copyLen] != Pattern(magic, footer)[i..i + copyLen]
    ensures !Shows(m, start, footer, magic)
  {
    var k :| 0 <= k < copyLen && m[start + i..start + i + copyLen][k] != Pattern(magic, footer)[i..i + copyLen][k];
    assert m[start + (i + k)] != Pattern(magic, footer)[i + k];
  }

  method LoadWord(mem: array<Byte>, at: nat, n: nat) returns (w: nat)
    requires at + n <= mem.Length
    ensures w == Word(mem[..], at, n)
  {
    assert mem[at..at + n] == mem[..][at..at + n];
    w := LeValue(mem[at..at + n]);
  }

  // ---------- poison_block

  predicate Poisonable(m: seq<Byte>, raw: nat, footer: nat) {
    Checkable(m, raw, footer) && (raw != 0 ==> raw + UserOffsetAt(m, raw) <= |m|)
  }

  /** Storing outside a block's header fields other than the magic keeps what they read as. */
  lemma FieldsKept(m: seq<Byte>, raw: nat, at: nat, x: seq<Byte>)
    requires raw + HEADER_SIZE <= |m| && at + |x| <= |m|
    requires (at == raw && |x| == 8) || at >= raw + HEADER_SIZE || at + |x| <= raw
    ensures var m' := Put(m, at, x);
      && UserOffsetAt(m', raw) == UserOffsetAt(m, raw)
      && RequestedAt(m', raw) == RequestedAt(m, raw)
      && HasCanaryAt(m', raw) == HasCanaryAt(m, raw)
  {
    PutReads(m, at, x, raw + 32, 8);
    PutReads(m, at, x, raw + 16, 8);
  }

  /** Erases the back-offset and overwrites the footer with `magic`. */
  function Unlinked(m: seq<Byte>, raw: nat, footer: nat, magic: nat): (r: seq<Byte>)
    requires raw != 0 && Poisonable(m, raw, footer) && UserOffsetAt(m, raw) >= HEADER_SIZE + LINK_SIZE
    ensures |r| == |m|
  {
    var unlinked := Put(m, raw + UserOffsetAt(m, raw) - LINK_SIZE, Zeros(LINK_SIZE));
    if HasCanaryAt(m, raw) && footer >= 8
    then Put(unlinked, FooterStart(m, raw), Pattern(magic, footer)) else unlinked
  }

  /** Memory after `poison_block` stamps `magic` on the block whose header is at `raw`. */
  function Stamped(m: seq<Byte>, raw: nat, footer: nat, magic: nat): (r: seq<Byte>)
    requires Poisonable(m, raw, footer)
    ensures |r| == |m|
  {
    if raw == 0 then m else
    var marked := Put(m, raw, LeBytes(magic, 8));
    FieldsKept(m, raw, raw, LeBytes(magic, 8));
    var cut := if UserOffsetAt(m, raw) >= HEADER_SIZE + LINK_SIZE
               then Unlinked(marked, raw, footer, magic) else marked;
    Put(cut, raw + 32, Zeros(8))
  }

  function Poisoned(m: seq<Byte>, raw: nat, footer: nat): (r: seq<Byte>)
    requires Poisonable(m, raw, footer)
    ensures |r| == |m|
  {
    Stamped(m, raw, footer, FREED_MAGIC)
  }

  method PoisonBlock(mem: array<Byte>, raw: nat, footer: nat)
    requires Poisonable(mem[..], raw, footer)
    modifies mem
    ensures mem[..] == Poisoned(old(mem[..]), raw, footer)
  {
    StampBlock(mem, raw, footer, FREED_MAGIC);
  }

  method StampBlock(mem: array<Byte>, raw: nat, footer: nat, magic: nat)
    requires Poisonable(mem[..], raw, footer)
    modifies mem
    ensures mem[..] == Stamped(old(mem[..]), raw, footer, magic)
  {
    if raw == 0 { return; }
    FieldsKept(mem[..], raw, raw, LeBytes(magic, 8));
    Store(mem, raw, LeBytes(magic, 8));
    var offset := LoadWord(mem, raw + 32, 8);
    if offset >= HEADER_SIZE + LINK_SIZE {
      UnlinkBlock(mem, raw, offset, footer, magic);
    }
    Store(mem, raw + 32, Zeros(8));
  }

  method UnlinkBlock(mem: array<Byte>, raw: nat, offset: nat, footer: nat, magic: nat)
    requires raw != 0 && Poisonable(mem[..], raw, footer)
    requires offset == UserOffsetAt(mem[..], raw) >= HEADER_SIZE + LINK_SIZE
    modifies mem
    ensures mem[..] == Unlinked(old(mem[..]), raw, footer, magic)
  {
    hide LeBytes, LeValue, Pattern, Zeros, Put;
    FieldsKept(mem[..], raw, raw + offset - LINK_SIZE, Zeros(LINK_SIZE));
    Store(mem, raw + offset - LINK_SIZE, Zeros(LINK_SIZE));
    if mem[raw + 56] != 0 && footer >= 8 {
      var requested := LoadWord(mem, raw + 16, 8);
      FillFooter(mem, raw + offset + requested, footer, magic);
    }
  }
}
