/**
 What the block format guarantees: the header found from a user address is the right one,
 the canary check is exact, and a poisoned block is recognised and found no more.
 */
module BlockProofs {
  import opened Words
  import opened Wrappers
  import opened Layout
  import opened Block
  import opened SystemHeap

  ghost predicate InBounds(m: seq<Byte>, raw: nat, h: Header, footer: nat) {
    && raw != 0 && h.Fits()
    && h.userOffset >= HEADER_SIZE + LINK_SIZE
    && raw + h.userOffset + h.requested + footer <= |m|
  }

  /** Everything of the block's metadata but its magic and its footer is in place. */
  ghost predicate Framed(m: seq<Byte>, raw: nat, h: Header, footer: nat) {
    && InBounds(m, raw, h, footer)
    && m[raw + 8..raw + HEADER_SIZE] == HeaderBytes(h)[8..HEADER_SIZE]
    && m[raw + h.userOffset - LINK_SIZE..raw + h.userOffset] == LeBytes(h.userOffset % W32, LINK_SIZE)
  }

  /** The live magic and every footer byte are in place. */
  ghost predicate Armed(m: seq<Byte>, raw: nat, h: Header, footer: nat)
    requires InBounds(m, raw, h, footer)
  {
    && Magic(m, raw) == LIVE_MAGIC
    && (h.hasCanary && footer >= 8 ==> FooterIntact(m, raw + h.userOffset + h.requested, footer))
  }

  /** The bytes that belong to the block's metadata. */
  predicate IsMetadata(raw: nat, h: Header, footer: nat, i: int) {
    var user := raw + h.userOffset;
    || raw <= i < raw + HEADER_SIZE
    || user - LINK_SIZE <= i < user
    || (h.hasCanary && footer >= 8 && user + h.requested <= i < user + h.requested + footer)
  }

  // ---------- reading a header back

  lemma HeaderSlices(h: Header)
    ensures HeaderBytes(h)[0..8] == LeBytes(h.magic, 8)
    ensures HeaderBytes(h)[8..HEADER_SIZE][8..16] == LeBytes(h.requested, 8)
    ensures HeaderBytes(h)[8..HEADER_SIZE][24..32] == LeBytes(h.userOffset, 8)
    ensures HeaderBytes(h)[8..HEADER_SIZE][48] == CanaryByte(h.hasCanary)
  {
    Slices(LeBytes(h.magic, 8), LeBytes(h.allocationId, 8), LeBytes(h.requested, 8), LeBytes(h.total, 8),
           LeBytes(h.userOffset, 8), LeBytes(h.alignment, 8), LeBytes(h.tag, 8),
           [CanaryByte(h.hasCanary), 0, 0, 0], LeBytes(h.threadId, 4));
  }

  lemma Slices(a: seq<Byte>, b: seq<Byte>, c: seq<Byte>, d: seq<Byte>, e: seq<Byte>, f: seq<Byte>, g: seq<Byte>,
               flags: seq<Byte>, last: seq<Byte>)
    requires |a| == |b| == |c| == |d| == |e| == |f| == |g| == 8 && |flags| == |last| == 4
    ensures var s := a + b + c + d + e + f + g + flags + last;
      && s[0..8] == a && s[8..64][8..16] == c && s[8..64][24..32] == e && s[8..64][48] == flags[0]
  {
    var s := a + b + c + d + e + f + g + flags + last;
    forall k | 0 <= k < 8 ensures s[8..64][8..16][k] == c[k] && s[8..64][24..32][k] == e[k] {
      assert s[8..64][8..16][k] == s[16 + k] && s[8..64][24..32][k] == s[32 + k];
    }
  }

  lemma SliceOfSlice(m: seq<Byte>, a: nat, b: nat, c: nat, d: nat)
    requires a <= b <= |m| && c <= d <= b - a
    ensures m[a..b][c..d] == m[a + c..a + d]
  {
    forall k | 0 <= k < d - c ensures m[a..b][c..d][k] == m[a + c..a + d][k] {
      assert m[a..b][c..d][k] == m[a..b][c + k];
    }
  }

  /** A word stored in a slice of memory reads back. */
  lemma WordInSlice(m: seq<Byte>, a: nat, b: nat, c: nat, n: nat, v: nat)
    requires a <= b <= |m| && c + n <= b - a && v < Pow256(n)
    requires m[a..b][c..c + n] == LeBytes(v, n)
    ensures Word(m, a + c, n) == v
  {
    SliceOfSlice(m, a, b, c, c + n);
    LeRoundTrip(v, n);
  }

  lemma FramedReads(m: seq<Byte>, raw: nat, h: Header, footer: nat)
    requires Framed(m, raw, h, footer)
    ensures UserOffsetAt(m, raw) == h.userOffset && RequestedAt(m, raw) == h.requested
    ensures HasCanaryAt(m, raw) == h.hasCanary
    ensures Word(m, raw + h.userOffset - LINK_SIZE, LINK_SIZE) == h.userOffset % W32
    ensures Checkable(m, raw, footer) && Poisonable(m, raw, footer)
  {
    hide HeaderBytes, LeBytes, LeValue;
    WordSizes();
    HeaderSlices(h);
    WordInSlice(m, raw + 8, raw + HEADER_SIZE, 8, 8, h.requested);
    WordInSlice(m, raw + 8, raw + HEADER_SIZE, 24, 8, h.userOffset);
    assert m[raw + 56] == m[raw + 8..raw + HEADER_SIZE][48];
    LeRoundTrip(h.userOffset % W32, LINK_SIZE);
  }

  /** Only metadata bytes matter to a block. */
  lemma MetadataDecides(m: seq<Byte>, m': seq<Byte>, raw: nat, h: Header, footer: nat)
    requires Framed(m, raw, h, footer) && |m'| == |m|
    requires forall i :: 0 <= i < |m| && IsMetadata(raw, h, footer, i) ==> m'[i] == m[i]
    ensures Framed(m', raw, h, footer)
    ensures Armed(m', raw, h, footer) == Armed(m, raw, h, footer)
  {
    var user := raw + h.userOffset;
    assert m'[raw + 8..raw + HEADER_SIZE] == m[raw + 8..raw + HEADER_SIZE];
    assert m'[user - LINK_SIZE..user] == m[user - LINK_SIZE..user];
    assert m'[raw..raw + 8] == m[raw..raw + 8];
    if h.hasCanary && footer >= 8 {
      var start := user + h.requested;
      assert forall i :: start <= i < start + footer ==> m'[i] == m[i];
    }
  }

  // ---------- initialising

  lemma InitialisedFrame(m: seq<Byte>, raw: nat, h: Header, footer: nat, i: nat)
    requires InBounds(m, raw, h, footer) && i < |m| && !IsMetadata(raw, h, footer, i)
    ensures Initialised(m, raw, h, footer)[i] == m[i]
  {
  }

  lemma InitialisedIsArmed(m: seq<Byte>, raw: nat, h: Header, footer: nat)
    requires InBounds(m, raw, h, footer) && h.magic == LIVE_MAGIC
    ensures var r := Initialised(m, raw, h, footer); Framed(r, raw, h, footer) && Armed(r, raw, h, footer)
  {
    var r := Initialised(m, raw, h, footer);
    InitialisedParts(m, raw, h, footer);
    SliceOfSlice(r, raw, raw + HEADER_SIZE, 8, HEADER_SIZE);
    SliceOfSlice(r, raw, raw + HEADER_SIZE, 0, 8);
    HeaderSlices(h);
    WordSizes();
    LeRoundTrip(h.magic, 8);
  }

  lemma InitialisedParts(m: seq<Byte>, raw: nat, h: Header, footer: nat)
    requires InBounds(m, raw, h, footer)
    ensures var r := Initialised(m, raw, h, footer); var user := raw + h.userOffset;
      && r[raw..raw + HEADER_SIZE] == HeaderBytes(h)
      && r[user - LINK_SIZE..user] == LeBytes(h.userOffset % W32, LINK_SIZE)
      && (h.hasCanary && footer >= 8 ==> FooterIntact(r, user + h.requested, footer))
  {
    var user := raw + h.userOffset;
    PartsInPlace(m, raw, HeaderBytes(h), user, LeBytes(h.userOffset % W32, LINK_SIZE), user + h.requested,
                 h.hasCanary && footer >= 8, footer, FOOTER_MAGIC);
  }

  lemma PartsInPlace(m: seq<Byte>, raw: nat, header: seq<Byte>, user: nat, link: seq<Byte>, start: nat, canary: bool,
                     footer: nat, magic: nat)
    requires |header| == HEADER_SIZE && |link| == LINK_SIZE
    requires raw + HEADER_SIZE + LINK_SIZE <= user <= start && start + footer <= |m|
    ensures var linked := Put(Put(m, raw, header), user - LINK_SIZE, link);
      var r := if canary then Put(linked, start, Pattern(magic, footer)) else linked;
      && r[raw..raw + HEADER_SIZE] == header
      && r[user - LINK_SIZE..user] == link
      && (canary ==> Shows(r, start, footer, magic))
  {
    PutReads(m, raw, header, raw, HEADER_SIZE);
    PutReads(Put(m, raw, header), user - LINK_SIZE, link, raw, HEADER_SIZE);
    PutReads(Put(m, raw, header), user - LINK_SIZE, link, user - LINK_SIZE, LINK_SIZE);
    if canary {
      FooterLast(Put(Put(m, raw, header), user - LINK_SIZE, link), raw, user, start, footer, magic);
    }
  }

  /** Writing the footer last leaves header and link alone and shows the magic value. */
  lemma FooterLast(m: seq<Byte>, raw: nat, user: nat, start: nat, footer: nat, magic: nat)
    requires raw + HEADER_SIZE + LINK_SIZE <= user <= start && start + footer <= |m|
    ensures var r := Put(m, start, Pattern(magic, footer));
      && r[raw..raw + HEADER_SIZE] == m[raw..raw + HEADER_SIZE]
      && r[user - LINK_SIZE..user] == m[user - LINK_SIZE..user]
      && Shows(r, start, footer, magic)
  {
    PutReads(m, start, Pattern(magic, footer), raw, HEADER_SIZE);
    PutReads(m, start, Pattern(magic, footer), user - LINK_SIZE, LINK_SIZE);
  }

  // ---------- checking

  /**
   The check is exact: it reports nothing iff the magic and every footer byte are intact; with
   the magic intact it reports the footer; and any other magic is reported as what it is.
   */
  lemma VerdictIsExact(m: seq<Byte>, raw: nat, h: Header, footer: nat)
    requires Framed(m, raw, h, footer)
    ensures Checkable(m, raw, footer)
    ensures Verdict(m, raw, footer) == NoCorruption <==> Armed(m, raw, h, footer)
    ensures Magic(m, raw) == LIVE_MAGIC && !Armed(m, raw, h, footer) ==> Verdict(m, raw, footer) == FooterCorrupted
    ensures Magic(m, raw) != LIVE_MAGIC ==>
      Verdict(m, raw, footer) == if Magic(m, raw) == FREED_MAGIC then DoubleFree else HeaderCorrupted
  {
    FramedReads(m, raw, h, footer);
  }

  /** On a fresh canary block, changing any one footer byte is reported, and no other write is. */
  lemma OneByteDecides(m: seq<Byte>, raw: nat, h: Header, footer: nat, at: nat, b: Byte)
    requires InBounds(m, raw, h, footer) && h.magic == LIVE_MAGIC && h.hasCanary && footer >= 8
    requires at < |m| && b != Initialised(m, raw, h, footer)[at]
    requires !(raw <= at < raw + HEADER_SIZE)
    requires !(raw + h.userOffset - LINK_SIZE <= at < raw + h.userOffset)
    ensures var r := Initialised(m, raw, h, footer)[at := b];
      var start := raw + h.userOffset + h.requested;
      && Checkable(r, raw, footer)
      && Verdict(r, raw, footer) == if start <= at < start + footer then FooterCorrupted else NoCorruption
  {
    var i := Initialised(m, raw, h, footer);
    var start := raw + h.userOffset + h.requested;
    InitialisedIsArmed(m, raw, h, footer);
    if start <= at < start + footer {
      MetadataWithoutFooter(i, i[at := b], raw, h, footer);
      assert i[start + (at - start)] == Pattern(FOOTER_MAGIC, footer)[at - start];
      assert i[at := b][start + (at - start)] == b;
      assert !FooterIntact(i[at := b], start, footer);
    } else {
      MetadataDecides(i, i[at := b], raw, h, footer);
    }
    VerdictIsExact(i[at := b], raw, h, footer);
  }

  lemma MetadataWithoutFooter(m: seq<Byte>, m': seq<Byte>, raw: nat, h: Header, footer: nat)
    requires Framed(m, raw, h, footer) && |m'| == |m|
    requires forall i :: raw <= i < raw + h.userOffset ==> m'[i] == m[i]
    ensures Framed(m', raw, h, footer) && Magic(m', raw) == Magic(m, raw)
  {
    var user := raw + h.userOffset;
    assert m'[raw + 8..raw + HEADER_SIZE] == m[raw + 8..raw + HEADER_SIZE];
    assert m'[user - LINK_SIZE..user] == m[user - LINK_SIZE..user];
    assert m'[raw..raw + 8] == m[raw..raw + 8];
  }

  // ---------- the back-link

  /** The lookup leads back to the block iff it is live and its offset is within the accepted limit. */
  lemma BackLinkIsExact(m: seq<Byte>, raw: nat, h: Header, footer: nat)
    requires Framed(m, raw, h, footer) && raw + h.userOffset >= MAX_LINK
    ensures BackLink(m, raw + h.userOffset) == Some(raw) <==>
      Magic(m, raw) == LIVE_MAGIC && h.userOffset <= MAX_LINK
  {
    hide HeaderBytes, LeBytes, LeValue, Word;
    FramedReads(m, raw, h, footer);
  }

  /**
   Round trip through `init_block`: for 16-aligned raw memory and a power-of-two alignment of at
   most 4096, the user address leads back to the raw address; for any alignment whatever it does
   so exactly when the offset respects the limit.
   */
  lemma BackLinkRoundTrip(m: seq<Byte>, raw: nat, requested: nat, alignment: nat, footer: nat, id: nat, tag: nat,
                          canary: bool, threadId: nat)
    requires |m| <= W64 && MAX_LINK <= raw && raw + TrueTotal(requested, alignment, footer) <= |m|
    requires id < W64 && tag < W64 && threadId < W32
    ensures var h := InitialHeader(raw, requested, alignment, footer, id, tag, canary, threadId);
      && InBounds(m, raw, h, footer)
      && (BackLink(Initialised(m, raw, h, footer), raw + h.userOffset) == Some(raw)
          <==> UserAddress(raw, alignment) - raw <= MAX_LINK)
      && (raw % 16 == 0 && IsPowerOfTwo(alignment) && alignment <= 4096 ==>
            BackLink(Initialised(m, raw, h, footer), raw + h.userOffset) == Some(raw))
  {
    hide HeaderBytes, LeBytes, LeValue, UserAddress, BackLink, Initialised, Armed;
    UserAddressInSpan(raw, alignment);
    var h := InitialHeader(raw, requested, alignment, footer, id, tag, canary, threadId);
    InitialisedIsArmed(m, raw, h, footer);
    BackLinkIsExact(Initialised(m, raw, h, footer), raw, h, footer);
    if raw % 16 == 0 && IsPowerOfTwo(alignment) && alignment <= 4096 { UserOffsetBounds(raw, alignment); }
  }

  /** A place that malloc can give for a block of `total` bytes. */
  predicate Place(m: seq<Byte>, raw: nat, total: nat) {
    |m| <= W64 && CanGive(map[], |m|, raw, total)
  }

  /** After `init_block` at `raw` the lookup leads back to `raw`. */
  ghost predicate RoundTrips(m: seq<Byte>, raw: nat, requested: nat, alignment: nat, footer: nat, canary: bool)
    requires Place(m, raw, TrueTotal(requested, alignment, footer))
  {
    UserAddressInSpan(raw, alignment);
    var h := InitialHeader(raw, requested, alignment, footer, 0, 0, canary, 0);
    BackLink(Initialised(m, raw, h, footer), raw + h.userOffset) == Some(raw)
  }

  /** At multiples of 8192 the round trip fails for every power-of-two alignment above 4096. */
  lemma LargeAlignmentLosesTheLink(m: seq<Byte>, raw: nat, requested: nat, alignment: nat, footer: nat, canary: bool)
    requires IsPowerOfTwo(alignment) && 4096 < alignment < W64
    requires raw % 8192 == 0 && Place(m, raw, TrueTotal(requested, alignment, footer))
    ensures !RoundTrips(m, raw, requested, alignment, footer, canary)
  {
    hide HeaderBytes, LeBytes, LeValue, UserAddress, BackLink, Initialised, IsPowerOfTwo, Pow2;
    LongOffset(raw, alignment);
    BackLinkRoundTrip(m, raw, requested, alignment, footer, 0, 0, canary, 0);
  }

  /** For one: alignment 8192 at the address 0x1_2000, which malloc can give for it. */
  lemma LinkIsLost(m: seq<Byte>)
    requires |m| == 0x2_0000
    ensures IsPowerOfTwo(8192) && CanGive(map[], |m|, 0x1_2000, TrueTotal(100, 8192, 16))
    ensures Place(m, 0x1_2000, TrueTotal(100, 8192, 16)) && !RoundTrips(m, 0x1_2000, 100, 8192, 16, true)
  {
    hide UserAddress, BackLink, Initialised;
    SmallPowers();
    LargeAlignmentLosesTheLink(m, 0x1_2000, 100, 8192, 16, true);
  }

  /**
   Among power-of-two alignments, the round trip holds for all memory that malloc can give iff the
   alignment is at most 4096.
   */
  lemma RoundTripsAlwaysIff(requested: nat, alignment: nat, footer: nat, canary: bool)
    requires IsPowerOfTwo(alignment) && alignment < W64 && LOWEST + TrueTotal(requested, alignment, footer) <= W64
    ensures (forall m: seq<Byte>, raw: nat :: Place(m, raw, TrueTotal(requested, alignment, footer)) ==>
               RoundTrips(m, raw, requested, alignment, footer, canary))
            <==> alignment <= 4096
  {
    hide HeaderBytes, LeBytes, LeValue, UserAddress, BackLink, Initialised, IsPowerOfTwo, Pow2, InitialHeader;
    var total := TrueTotal(requested, alignment, footer);
    if alignment <= 4096 {
      forall m: seq<Byte>, raw: nat | Place(m, raw, total)
        ensures RoundTrips(m, raw, requested, alignment, footer, canary)
      {
        BackLinkRoundTrip(m, raw, requested, alignment, footer, 0, 0, canary, 0);
      }
    } else {
      var m := Zeros(LOWEST + total);
      assert Place(m, LOWEST, total);
      LargeAlignmentLosesTheLink(m, LOWEST, requested, alignment, footer, canary);
    }
  }

  // ---------- poisoning

  lemma PoisonedFrame(m: seq<Byte>, raw: nat, h: Header, footer: nat, i: nat)
    requires Framed(m, raw, h, footer) && i < |m| && !IsMetadata(raw, h, footer, i)
    ensures Poisonable(m, raw, footer) && Poisoned(m, raw, footer)[i] == m[i]
  {
    FramedReads(m, raw, h, footer);
    StampedFrame(m, raw, h, footer, FREED_MAGIC, i);
  }

  lemma StampedFrame(m: seq<Byte>, raw: nat, h: Header, footer: nat, magic: nat, i: nat)
    requires Framed(m, raw, h, footer) && i < |m| && !IsMetadata(raw, h, footer, i)
    requires Poisonable(m, raw, footer)
    ensures Stamped(m, raw, footer, magic)[i] == m[i]
  {
    FramedReads(m, raw, h, footer);
    FieldsKept(m, raw, raw, LeBytes(magic, 8));
  }

  lemma StampedReads(m: seq<Byte>, raw: nat, h: Header, footer: nat, magic: nat)
    requires Framed(m, raw, h, footer) && Poisonable(m, raw, footer) && magic < W64
    ensures var r := Stamped(m, raw, footer, magic); var user := raw + h.userOffset;
      && Magic(r, raw) == magic && UserOffsetAt(r, raw) == 0
      && HasCanaryAt(r, raw) == h.hasCanary && RequestedAt(r, raw) == h.requested
      && Word(r, user - LINK_SIZE, LINK_SIZE) == 0
      && (h.hasCanary && footer >= 8 ==> Shows(r, user + h.requested, footer, magic))
  {
    FramedReads(m, raw, h, footer);
    FieldsKept(m, raw, raw, LeBytes(magic, 8));
    PutReads(m, raw, LeBytes(magic, 8), raw, 8);
    StampedTail(Put(m, raw, LeBytes(magic, 8)), raw, h, footer, magic);
    WordSizes();
    LeRoundTrip(magic, 8);
  }

  lemma StampedTail(m: seq<Byte>, raw: nat, h: Header, footer: nat, magic: nat)
    requires InBounds(m, raw, h, footer) && Poisonable(m, raw, footer)
    requires UserOffsetAt(m, raw) == h.userOffset && RequestedAt(m, raw) == h.requested
    requires HasCanaryAt(m, raw) == h.hasCanary
    ensures var r := Put(Unlinked(m, raw, footer, magic), raw + 32, Zeros(8)); var user := raw + h.userOffset;
      && Magic(r, raw) == Magic(m, raw) && UserOffsetAt(r, raw) == 0
      && HasCanaryAt(r, raw) == h.hasCanary && RequestedAt(r, raw) == h.requested
      && Word(r, user - LINK_SIZE, LINK_SIZE) == 0
      && (h.hasCanary && footer >= 8 ==> Shows(r, user + h.requested, footer, magic))
  {
    UnlinkedReads(m, raw, h, footer, magic);
    var user := raw + h.userOffset;
    LastStore(Unlinked(m, raw, footer, magic), raw, user, user + h.requested, footer, magic);
    ZerosAreZero(LINK_SIZE);
  }

  lemma UnlinkedReads(m: seq<Byte>, raw: nat, h: Header, footer: nat, magic: nat)
    requires InBounds(m, raw, h, footer) && Poisonable(m, raw, footer)
    requires UserOffsetAt(m, raw) == h.userOffset && RequestedAt(m, raw) == h.requested
    requires HasCanaryAt(m, raw) == h.hasCanary
    ensures var r := Unlinked(m, raw, footer, magic); var user := raw + h.userOffset;
      && Magic(r, raw) == Magic(m, raw)
      && HasCanaryAt(r, raw) == HasCanaryAt(m, raw) && RequestedAt(r, raw) == RequestedAt(m, raw)
      && r[user - LINK_SIZE..user] == Zeros(LINK_SIZE)
      && (h.hasCanary && footer >= 8 ==> Shows(r, user + h.requested, footer, magic))
  {
    hide LeBytes, LeValue, Pattern, Shows, Put;
    var user := raw + h.userOffset;
    LinkCleared(m, raw, user, Zeros(LINK_SIZE));
    if h.hasCanary && footer >= 8 {
      var unlinked := Put(m, user - LINK_SIZE, Zeros(LINK_SIZE));
      FooterLast(unlinked, raw, user, user + h.requested, footer, magic);
      PutReads(unlinked, user + h.requested, Pattern(magic, footer), raw, 8);
      FieldsKept(unlinked, raw, user + h.requested, Pattern(magic, footer));
    }
  }

  lemma LinkCleared(m: seq<Byte>, raw: nat, user: nat, x: seq<Byte>)
    requires raw + HEADER_SIZE + LINK_SIZE <= user <= |m| && |x| == LINK_SIZE
    ensures var r := Put(m, user - LINK_SIZE, x);
      && Magic(r, raw) == Magic(m, raw) && UserOffsetAt(r, raw) == UserOffsetAt(m, raw)
      && HasCanaryAt(r, raw) == HasCanaryAt(m, raw) && RequestedAt(r, raw) == RequestedAt(m, raw)
      && r[user - LINK_SIZE..user] == x
  {
    PutReads(m, user - LINK_SIZE, x, raw, 8);
    FieldsKept(m, raw, user - LINK_SIZE, x);
    PutReads(m, user - LINK_SIZE, x, user - LINK_SIZE, LINK_SIZE);
  }

  /** Clearing the user-offset field keeps the rest of the metadata. */
  lemma LastStore(m: seq<Byte>, raw: nat, user: nat, start: nat, footer: nat, magic: nat)
    requires raw + HEADER_SIZE + LINK_SIZE <= user <= start && start + footer <= |m|
    ensures var r := Put(m, raw + 32, Zeros(8));
      && Magic(r, raw) == Magic(m, raw) && UserOffsetAt(r, raw) == 0
      && HasCanaryAt(r, raw) == HasCanaryAt(m, raw) && RequestedAt(r, raw) == RequestedAt(m, raw)
      && r[user - LINK_SIZE..user] == m[user - LINK_SIZE..user]
      && (Shows(m, start, footer, magic) ==> Shows(r, start, footer, magic))
  {
    PutReads(m, raw + 32, Zeros(8), raw, 8);
    PutReads(m, raw + 32, Zeros(8), raw + 16, 8);
    PutReads(m, raw + 32, Zeros(8), raw + 32, 8);
    PutReads(m, raw + 32, Zeros(8), user - LINK_SIZE, LINK_SIZE);
    WordSizes();
    ZerosAreZero(8);
  }

  /** After poisoning, the check says double free, the back-link finds nothing, and the payload is untouched. */
  lemma PoisonedIsRecognised(m: seq<Byte>, raw: nat, h: Header, footer: nat)
    requires Framed(m, raw, h, footer)
    ensures Poisonable(m, raw, footer)
    ensures var r := Poisoned(m, raw, footer); var user := raw + h.userOffset;
      && Checkable(r, raw, footer) && Verdict(r, raw, footer) == DoubleFree
      && (user >= MAX_LINK ==> BackLink(r, user) == None)
      && r[user..user + h.requested] == m[user..user + h.requested]
  {
    FramedReads(m, raw, h, footer);
    StampedReads(m, raw, h, footer, FREED_MAGIC);
    var r := Poisoned(m, raw, footer);
    var user := raw + h.userOffset;
    forall i | user <= i < user + h.requested ensures r[i] == m[i] {
      PoisonedFrame(m, raw, h, footer, i);
    }
  }

  /** Poisoning twice is poisoning once, even if the second call is told another footer size. */
  lemma PoisonIsIdempotent(m: seq<Byte>, raw: nat, h: Header, footer: nat, footer': nat)
    requires Framed(m, raw, h, footer) && Poisonable(m, raw, footer)
    requires Poisonable(Poisoned(m, raw, footer), raw, footer')
    ensures Poisoned(Poisoned(m, raw, footer), raw, footer') == Poisoned(m, raw, footer)
  {
    StampedReads(m, raw, h, footer, FREED_MAGIC);
    StampAgain(Poisoned(m, raw, footer), raw, footer', FREED_MAGIC);
  }

  lemma StampAgain(r: seq<Byte>, raw: nat, footer: nat, magic: nat)
    requires raw != 0 && Poisonable(r, raw, footer) && Magic(r, raw) == magic && UserOffsetAt(r, raw) == 0
    ensures Stamped(r, raw, footer, magic) == r
  {
    LeDetermines(r[raw..raw + 8]);
    ZeroValueIsZeros(r[raw + 32..raw + 40]);
    assert r[raw..raw + 8] == LeBytes(magic, 8);
    assert r[raw + 32..raw + 40] == Zeros(8);
    var marked := Put(r, raw, LeBytes(magic, 8));
    forall i | 0 <= i < |r| ensures marked[i] == r[i] {
      if raw <= i < raw + 8 { assert r[raw..raw + 8][i - raw] == r[i]; }
    }
    assert marked == r;
    forall i | 0 <= i < |r| ensures Put(r, raw + 32, Zeros(8))[i] == r[i] {
      if raw + 32 <= i < raw + 40 { assert r[raw + 32..raw + 40][i - (raw + 32)] == r[i]; }
    }
  }
}
