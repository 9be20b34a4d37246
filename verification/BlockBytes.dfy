/**
 What is in memory after a block was laid out or marked as freed, byte by byte, and what the check
 and the lookup answer on any memory whatever.
 */
module BlockBytes {
  import opened Words
  import opened Wrappers
  import opened Layout
  import opened Block
  import opened BlockProofs

  /** Byte number `j` of a 64-bit value repeated over and over, least significant byte first. */
  function MagicByte(magic: nat, j: nat): Byte { magic / Pow256(j % 8) % 256 }

  lemma {:induction false} ByteOfWord(v: nat, n: nat, k: nat)
    requires k < n
    ensures LeBytes(v, n)[k] == v / Pow256(k) % 256
  {
    if k > 0 {
      ByteOfWord(v / 256, n - 1, k - 1);
      DivideTwice(v, Pow256(k - 1));
    }
  }

  lemma DivideTwice(v: nat, d: nat)
    requires d > 0
    ensures v / 256 / d == v / (256 * d)
  {
    var q, r := v / 256 / d, v / 256 % d;
    assert v / 256 == q * d + r;
    var low := v % 256;
    assert v == q * (256 * d) + (256 * r + low) by { Expand(v, q, d, r, low); }
    assert 256 * r + low < 256 * d;
    ModuloIs(v, 256 * d, q, 256 * r + low);
  }

  lemma Expand(v: nat, q: nat, d: nat, r: nat, low: nat)
    requires v == 256 * (q * d + r) + low
    ensures v == q * (256 * d) + (256 * r + low)
  {
  }

  lemma PatternByte(magic: nat, n: nat, j: nat)
    requires j < n
    ensures Pattern(magic, n)[j] == MagicByte(magic, j)
  {
    ByteOfWord(magic, 8, j % 8);
  }

  // ---------- init_block

  /** What `init_block` promises of memory `m'`, given memory `m`. */
  ghost predicate LaidOut(m: seq<Byte>, m': seq<Byte>, raw: nat, user: nat, requested: nat, alignment: nat, footer: nat,
                          id: nat, tag: nat, canary: bool, threadId: nat)
  {
    var start := user + requested;
    && |m'| == |m| && raw + 68 <= user && start + footer <= |m|
    && Word(m', raw, 8) == LIVE_MAGIC
    && Word(m', raw + 8, 8) == id
    && Word(m', raw + 16, 8) == requested
    && Word(m', raw + 24, 8) == user - raw + requested + (if canary then footer else 0)
    && Word(m', raw + 32, 8) == user - raw
    && Word(m', raw + 40, 8) == (if alignment > 16 then alignment else 16)
    && Word(m', raw + 48, 8) == (if tag == 0 then GENERAL else tag)
    && m'[raw + 56..raw + 60] == [if canary then 1 else 0, 0, 0, 0]
    && Word(m', raw + 60, 4) == threadId
    && Word(m', user - 4, 4) == (user - raw) % W32
    && forall i :: 0 <= i < |m| && !(raw <= i < raw + 64) && !(user - 4 <= i < user) ==>
         m'[i] == if canary && footer >= 8 && start <= i < start + footer then MagicByte(FOOTER_MAGIC, i - start)
                  else m[i]
  }

  /** The header's fields in the order of their declaration, the link, the red zone, and nothing else. */
  lemma InitialisedReads(m: seq<Byte>, raw: nat, requested: nat, alignment: nat, footer: nat, id: nat, tag: nat,
                         canary: bool, threadId: nat)
    requires |m| <= W64 && raw != 0 && raw + TrueTotal(requested, alignment, footer) <= |m|
    requires id < W64 && tag < W64 && threadId < W32
    ensures raw + MaxOffset(alignment) <= W64
    ensures var h := InitialHeader(raw, requested, alignment, footer, id, tag, canary, threadId);
      && InBounds(m, raw, h, footer)
      && LaidOut(m, Initialised(m, raw, h, footer), raw, UserAddress(raw, alignment), requested, alignment, footer, id,
                 tag, canary, threadId)
  {
    hide UserAddress, HeaderBytes, LeBytes, LeValue, Initialised, Pattern;
    UserAddressInSpan(raw, alignment);
    var h := InitialHeader(raw, requested, alignment, footer, id, tag, canary, threadId);
    var m' := Initialised(m, raw, h, footer);
    InitialisedParts(m, raw, h, footer);
    FieldsRead(m', raw, h);
    LinkReads(m', raw + h.userOffset, h.userOffset);
    forall i | 0 <= i < |m| && !(raw <= i < raw + 64) && !(raw + h.userOffset - 4 <= i < raw + h.userOffset)
      ensures m'[i] == if canary && footer >= 8 && raw + h.userOffset + requested <= i
                            < raw + h.userOffset + requested + footer
                       then MagicByte(FOOTER_MAGIC, i - (raw + h.userOffset + requested)) else m[i]
    {
      InitialisedByte(m, raw, h, footer, i);
    }
  }

  lemma InitialisedByte(m: seq<Byte>, raw: nat, h: Header, footer: nat, i: nat)
    requires InBounds(m, raw, h, footer) && i < |m|
    requires !(raw <= i < raw + HEADER_SIZE) && !(raw + h.userOffset - LINK_SIZE <= i < raw + h.userOffset)
    ensures var start := raw + h.userOffset + h.requested;
      Initialised(m, raw, h, footer)[i] == if h.hasCanary && footer >= 8 && start <= i < start + footer
                                           then MagicByte(FOOTER_MAGIC, i - start) else m[i]
  {
    hide HeaderBytes, LeBytes, Pattern, MagicByte;
    var start := raw + h.userOffset + h.requested;
    if h.hasCanary && footer >= 8 && start <= i < start + footer { PatternByte(FOOTER_MAGIC, footer, i - start); }
  }

  lemma LinkReads(m: seq<Byte>, user: nat, offset: nat)
    requires LINK_SIZE <= user <= |m| && m[user - LINK_SIZE..user] == LeBytes(offset % W32, LINK_SIZE)
    ensures Word(m, user - LINK_SIZE, LINK_SIZE) == offset % W32
  {
    hide LeBytes, LeValue;
    WordSizes();
    LeRoundTrip(offset % W32, LINK_SIZE);
  }

  /** A header's fields read back from where they were stored. */
  lemma FieldsRead(m: seq<Byte>, raw: nat, h: Header)
    requires raw + HEADER_SIZE <= |m| && h.Fits() && m[raw..raw + HEADER_SIZE] == HeaderBytes(h)
    ensures Word(m, raw, 8) == h.magic && Word(m, raw + 8, 8) == h.allocationId
    ensures Word(m, raw + 16, 8) == h.requested && Word(m, raw + 24, 8) == h.total
    ensures Word(m, raw + 32, 8) == h.userOffset && Word(m, raw + 40, 8) == h.alignment
    ensures Word(m, raw + 48, 8) == h.tag && Word(m, raw + 60, 4) == h.threadId
    ensures m[raw + 56..raw + 60] == [CanaryByte(h.hasCanary), 0, 0, 0]
  {
    hide HeaderBytes, LeBytes, LeValue;
    WordSizes();
    FieldSlices(h);
    WordInSlice(m, raw, raw + 64, 0, 8, h.magic);
    WordInSlice(m, raw, raw + 64, 8, 8, h.allocationId);
    WordInSlice(m, raw, raw + 64, 16, 8, h.requested);
    WordInSlice(m, raw, raw + 64, 24, 8, h.total);
    WordInSlice(m, raw, raw + 64, 32, 8, h.userOffset);
    WordInSlice(m, raw, raw + 64, 40, 8, h.alignment);
    WordInSlice(m, raw, raw + 64, 48, 8, h.tag);
    WordInSlice(m, raw, raw + 64, 60, 4, h.threadId);
    SliceOfSlice(m, raw, raw + 64, 56, 60);
  }

  lemma FieldSlices(h: Header)
    ensures var b := HeaderBytes(h);
      && b[0..8] == LeBytes(h.magic, 8) && b[8..16] == LeBytes(h.allocationId, 8)
      && b[16..24] == LeBytes(h.requested, 8) && b[24..32] == LeBytes(h.total, 8)
      && b[32..40] == LeBytes(h.userOffset, 8) && b[40..48] == LeBytes(h.alignment, 8)
      && b[48..56] == LeBytes(h.tag, 8) && b[56..60] == [CanaryByte(h.hasCanary), 0, 0, 0]
      && b[60..64] == LeBytes(h.threadId, 4)
  {
    hide LeBytes;
    NineParts(LeBytes(h.magic, 8), LeBytes(h.allocationId, 8), LeBytes(h.requested, 8), LeBytes(h.total, 8),
              LeBytes(h.userOffset, 8), LeBytes(h.alignment, 8), LeBytes(h.tag, 8),
              [CanaryByte(h.hasCanary), 0, 0, 0], LeBytes(h.threadId, 4));
  }

  lemma NineParts(a: seq<Byte>, b: seq<Byte>, c: seq<Byte>, d: seq<Byte>, e: seq<Byte>, f: seq<Byte>, g: seq<Byte>,
                  flags: seq<Byte>, last: seq<Byte>)
    requires |a| == |b| == |c| == |d| == |e| == |f| == |g| == 8 && |flags| == |last| == 4
    ensures var s := a + b + c + d + e + f + g + flags + last;
      && s[0..8] == a && s[8..16] == b && s[16..24] == c && s[24..32] == d && s[32..40] == e && s[40..48] == f
      && s[48..56] == g && s[56..60] == flags && s[60..64] == last
  {
  }

  // ---------- poison_block

  /** Every byte after `poison_block`, on any memory on which it stays in bounds. */
  lemma PoisonedBytes(m: seq<Byte>, raw: nat, footer: nat, i: nat)
    requires raw != 0 && Poisonable(m, raw, footer) && i < |m|
    ensures var offset, user, start := UserOffsetAt(m, raw), raw + UserOffsetAt(m, raw), FooterStart(m, raw);
      Poisoned(m, raw, footer)[i] ==
        if raw <= i < raw + 8 then MagicByte(FREED_MAGIC, i - raw)
        else if raw + 32 <= i < raw + 40 then 0
        else if offset >= 68 && user - 4 <= i < user then 0
        else if offset >= 68 && HasCanaryAt(m, raw) && footer >= 8 && start <= i < start + footer
          then MagicByte(FREED_MAGIC, i - start)
        else m[i]
  {
    StampedByte(m, raw, footer, FREED_MAGIC, i);
  }

  lemma StampedByte(m: seq<Byte>, raw: nat, footer: nat, magic: nat, i: nat)
    requires raw != 0 && Poisonable(m, raw, footer) && i < |m|
    ensures var offset, user, start := UserOffsetAt(m, raw), raw + UserOffsetAt(m, raw), FooterStart(m, raw);
      Stamped(m, raw, footer, magic)[i] ==
        if raw <= i < raw + 8 then MagicByte(magic, i - raw)
        else if raw + 32 <= i < raw + 40 then 0
        else if offset >= 68 && user - 4 <= i < user then 0
        else if offset >= 68 && HasCanaryAt(m, raw) && footer >= 8 && start <= i < start + footer
          then MagicByte(magic, i - start)
        else m[i]
  {
    hide LeBytes, LeValue, Pattern, MagicByte;
    FieldsKept(m, raw, raw, LeBytes(magic, 8));
    if raw <= i < raw + 8 { WordByte(magic, i - raw); }
    var start := FooterStart(m, raw);
    if start <= i < start + footer { PatternByte(magic, footer, i - start); }
  }

  lemma WordByte(magic: nat, k: nat)
    requires k < 8
    ensures LeBytes(magic, 8)[k] == MagicByte(magic, k)
  {
    ByteOfWord(magic, 8, k);
  }

  // ---------- get_header_from_user_ptr and verify_canary, on any memory

  /**
   The lookup answers the address that the four bytes before `user` point back to, if that is between
   68 and 4160 bytes away and holds the live magic and the same distance; else nothing.
   */
  lemma BackLinkIff(m: seq<Byte>, user: nat, header: nat)
    requires MAX_LINK <= user <= |m|
    ensures BackLink(m, user) == Some(header) <==>
      && header + 68 <= user <= header + 4160
      && Word(m, user - 4, 4) == user - header == Word(m, header + 32, 8)
      && Word(m, header, 8) == LIVE_MAGIC
    ensures BackLink(m, 0) == None
  {
    hide LeValue;
  }

  /** The check's answer: null, freed magic, any other magic, a changed red-zone byte, or nothing wrong. */
  lemma VerdictIff(m: seq<Byte>, raw: nat, footer: nat)
    requires Checkable(m, raw, footer)
    ensures Verdict(m, raw, footer) == UntrackedPointer <==> raw == 0
    ensures Verdict(m, raw, footer) == DoubleFree <==> raw != 0 && Word(m, raw, 8) == FREED_MAGIC
    ensures Verdict(m, raw, footer) == HeaderCorrupted <==>
      raw != 0 && Word(m, raw, 8) != FREED_MAGIC && Word(m, raw, 8) != LIVE_MAGIC
    ensures Verdict(m, raw, footer) == FooterCorrupted <==>
      raw != 0 && Word(m, raw, 8) == LIVE_MAGIC && m[raw + 56] != 0 && footer >= 8
      && exists j :: 0 <= j < footer && FooterByteDiffers(m, raw, j)
  {
    hide LeValue, Pattern, MagicByte;
    if raw != 0 && HasCanaryAt(m, raw) && footer >= 8 {
      var start := FooterStart(m, raw);
      forall j | 0 <= j < footer
        ensures FooterByteDiffers(m, raw, j) <==> m[start + j] != Pattern(FOOTER_MAGIC, footer)[j]
      {
        PatternByte(FOOTER_MAGIC, footer, j);
      }
    }
  }

  /** Byte `j` of the red zone is not what was written there. */
  predicate FooterByteDiffers(m: seq<Byte>, raw: nat, j: nat)
    requires raw + HEADER_SIZE <= |m|
  {
    var at := raw + Word(m, raw + 32, 8) + Word(m, raw + 16, 8) + j;
    at < |m| && m[at] != MagicByte(FOOTER_MAGIC, j)
  }
}
