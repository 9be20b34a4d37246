/**
 Where the parts of a tracked block go: header, padding, 4-byte back-offset, user payload,
 footer red zone. All sizes and addresses are 64-bit words.
 */
module Layout {
  import opened Words

  const HEADER_SIZE: nat := 64
  const LINK_SIZE: nat := 4
  const MAX_ALIGN: nat := 16
  const MAX_LINK: nat := 4096 + HEADER_SIZE

  function EffectiveAlignment(alignment: nat): nat {
    if alignment > MAX_ALIGN then alignment else MAX_ALIGN
  }

  function MaxOffset(alignment: nat): nat {
    HEADER_SIZE + LINK_SIZE + EffectiveAlignment(alignment)
  }

  /** `calculate_total_size`, every operation modulo 2^64. */
  function CalculateTotalSize(requested: nat, alignment: nat, footer: nat): nat {
    var maxOffset := Wrap(MaxOffset(alignment));
    if requested > Wrap(W64 - 1 - maxOffset - footer) then 0
    else Wrap(maxOffset + requested + footer)
  }

  /** The user address `init_block` computes with a mask. */
  function UserAddress(raw: nat, alignment: nat): nat {
    var eff := EffectiveAlignment(alignment);
    And(Wrap(raw + HEADER_SIZE + LINK_SIZE + (eff - 1)), Not64(Wrap(eff - 1)))
  }

  /** The number of bytes a block needs, with no wrap-around. */
  function TrueTotal(requested: nat, alignment: nat, footer: nat): nat {
    MaxOffset(alignment) + requested + footer
  }

  /**
   What `calculate_total_size` promises: 0 marks overflow, anything else is the true sum.
   It keeps the promise exactly when the fixed part of the block fits in a word, or the
   guard rejects the request, or the sum happens to be 2^64 and wraps to the marker.
   */
  lemma TotalSizeIsExactIff(requested: nat, alignment: nat, footer: nat)
    requires requested < W64 && alignment < W64 && footer < W64
    ensures
      (CalculateTotalSize(requested, alignment, footer) ==
        if TrueTotal(requested, alignment, footer) < W64 then TrueTotal(requested, alignment, footer) else 0)
      <==>
      (|| MaxOffset(alignment) + footer < W64
       || requested > Wrap(W64 - 1 - MaxOffset(alignment) - footer)
       || Wrap(TrueTotal(requested, alignment, footer)) == 0)
  {
    var maxOffset := MaxOffset(alignment);
    if maxOffset + footer < W64 {
      assert Wrap(maxOffset) == maxOffset;
      assert Wrap(W64 - 1 - maxOffset - footer) == W64 - 1 - maxOffset - footer;
    } else {
      assert TrueTotal(requested, alignment, footer) >= W64;
      WrapAbsorbs(maxOffset, requested + footer);
      WrapAbsorbs(-maxOffset, W64 - 1 - footer);
      WrapOfNegation(maxOffset, W64 - 1 - footer);
    }
  }

  /** An alignment whose fixed part does not fit gives a wrong, nonzero size. */
  lemma TotalSizeCanBeWrong()
    ensures var footer := W64 - 1;
      CalculateTotalSize(0, 16, footer) == 83 && TrueTotal(0, 16, footer) >= W64
  {
  }

  /** For any alignment the mask keeps the user address inside the reserved span. */
  lemma UserAddressInSpan(raw: nat, alignment: nat)
    requires raw + MaxOffset(alignment) <= W64
    ensures raw + HEADER_SIZE + LINK_SIZE <= UserAddress(raw, alignment) < raw + MaxOffset(alignment)
    ensures var eff := EffectiveAlignment(alignment);
      UserAddress(raw, alignment)
        == raw + MaxOffset(alignment) - 1 - And(raw + MaxOffset(alignment) - 1, eff - 1)
  {
    hide And, Wrap;
    var eff := EffectiveAlignment(alignment);
    var top := raw + MaxOffset(alignment) - 1;
    WrapSmall(top);
    WrapSmall(eff - 1);
    NotMask(top, eff - 1);
  }

  ghost predicate IsPowerOfTwo(a: nat) { exists k: nat :: a == Pow2(k) }

  lemma {:induction false} Pow2Strict(j: nat, k: nat)
    requires j < k
    ensures 2 * Pow2(j) <= Pow2(k)
  {
    if k > j + 1 { Pow2Strict(j, k - 1); }
  }

  /** A power of two of at least 16 is a multiple of 16. */
  lemma PowerOfTwoAbove16(k: nat)
    requires Pow2(k) >= 16
    ensures k >= 4 && Pow2(k) == 16 * Pow2(k - 4)
  {
    assert Pow2(4) == 16;
    if k < 4 { Pow2Strict(k, 4); }
    assert Pow2(k) == 2 * Pow2(k - 1) == 4 * Pow2(k - 2) == 8 * Pow2(k - 3);
  }

  lemma EffectiveIsPowerOfTwo(alignment: nat) returns (k: nat)
    requires IsPowerOfTwo(alignment)
    ensures k >= 4 && EffectiveAlignment(alignment) == Pow2(k) == 16 * Pow2(k - 4)
  {
    if alignment > MAX_ALIGN {
      k :| alignment == Pow2(k);
    } else {
      k := 4;
      assert Pow2(4) == 16;
    }
    PowerOfTwoAbove16(k);
  }

  lemma MultipleOf(a: int, b: int, m: int)
    requires m > 0 && b > 0 && b % m == 0 && a % b == 0
    ensures a % m == 0
  {
    var p, q := a / b, b / m;
    assert a == p * b && b == q * m;
    assert a == p * (q * m) == (p * q) * m;
    ModuloIs(a, m, p * q, 0);
  }

  /** Rounding `top` down to a multiple of `m` gives the only multiple in the last `m` numbers. */
  lemma RoundDown(top: nat, m: nat)
    requires m > 0
    ensures var down := top - top % m;
      down % m == 0 && forall a :: top - m < a < down ==> a % m != 0
  {
    var q := top / m;
    var down := top - top % m;
    assert top == q * m + top % m;
    ModuloIs(down, m, q, 0);
    forall a | top - m < a < down ensures a % m != 0 {
      assert (q - 1) * m == q * m - m;
      ModuloIs(a, m, q - 1, m - (down - a));
    }
  }

  lemma UserAddressRoundsDown(raw: nat, alignment: nat, eff: nat, top: nat)
    requires IsPowerOfTwo(alignment) && raw + MaxOffset(alignment) <= W64
    requires eff == EffectiveAlignment(alignment) && top == raw + MaxOffset(alignment) - 1
    ensures eff > 0 && UserAddress(raw, alignment) == top - top % eff
  {
    hide And, Pow2, UserAddress, IsPowerOfTwo;
    var k := EffectiveIsPowerOfTwo(alignment);
    UserAddressInSpan(raw, alignment);
    LowMask(top, k);
  }

  /** For power-of-two alignments the user address is aligned, and it is the first such address. */
  lemma UserAddressAligned(raw: nat, alignment: nat)
    requires IsPowerOfTwo(alignment)
    requires raw + MaxOffset(alignment) <= W64
    ensures var eff := EffectiveAlignment(alignment); var user := UserAddress(raw, alignment);
      && user % eff == 0 && user % 16 == 0
      && forall a :: raw + HEADER_SIZE + LINK_SIZE <= a < user ==> a % eff != 0
  {
    hide And, Pow2, UserAddress, IsPowerOfTwo, EffectiveAlignment;
    var eff := EffectiveAlignment(alignment);
    var top := raw + MaxOffset(alignment) - 1;
    UserAddressRoundsDown(raw, alignment, eff, top);
    RoundDown(top, eff);
    var k := EffectiveIsPowerOfTwo(alignment);
    ModuloIs(eff, 16, Pow2(k - 4), 0);
    MultipleOf(UserAddress(raw, alignment), eff, 16);
  }

  /**
   From 16-aligned raw memory the user offset is a multiple of 16 in [80, 64 + alignment];
   so for alignments up to 4096 the back-offset is one that the lookup accepts.
   */
  lemma UserOffsetBounds(raw: nat, alignment: nat)
    requires raw % 16 == 0 && IsPowerOfTwo(alignment)
    requires raw + MaxOffset(alignment) <= W64
    ensures var offset := UserAddress(raw, alignment) - raw;
      && offset % 16 == 0
      && 80 <= offset <= HEADER_SIZE + EffectiveAlignment(alignment)
      && (alignment <= 4096 ==> offset <= MAX_LINK)
  {
    UserAddressInSpan(raw, alignment);
    UserAddressAligned(raw, alignment);
    var k := EffectiveIsPowerOfTwo(alignment);
    AtLeast80(raw, UserAddress(raw, alignment), EffectiveAlignment(alignment), Pow2(k - 4));
  }

  lemma AtLeast80(raw: nat, user: nat, eff: nat, q: nat)
    requires raw % 16 == 0 && user % 16 == 0 && eff == 16 * q
    requires raw + 68 <= user < raw + 68 + eff
    ensures (user - raw) % 16 == 0 && 80 <= user - raw <= 64 + eff
  {
  }

  lemma PageIsPowerOfTwo()
    ensures IsPowerOfTwo(4096)
  {
    SmallPowers();
  }

  /** The accepted maximum of 4096 + 64 is reached, once in every 4096 bytes. */
  lemma LinkBoundIsTight(raw: nat)
    requires raw % 4096 == 4032 && raw + MaxOffset(4096) <= W64
    ensures raw % 16 == 0 && IsPowerOfTwo(4096) && UserAddress(raw, 4096) - raw == MAX_LINK
  {
    hide UserAddress, And, IsPowerOfTwo;
    PageIsPowerOfTwo();
    UserAddressInSpan(raw, 4096);
    assert EffectiveAlignment(4096) == 4096 && MaxOffset(4096) == 4164;
    LowMask4096(raw + 4163);
    PageRemainder(raw);
  }

  lemma PageRemainder(raw: nat)
    requires raw % 4096 == 4032
    ensures (raw + 4163) % 4096 == 3 && raw % 16 == 0
  {
    ModuloIs(raw + 4163, 4096, raw / 4096 + 2, 3);
    ModuloIs(raw, 16, raw / 4096 * 256 + 252, 0);
  }

  lemma {:induction false} Pow2Multiple(k: nat)
    requires k >= 13
    ensures Pow2(k) % 8192 == 0
  {
    if k == 13 {
      assert Pow2(6) == 64;
      assert Pow2(12) == 4096;
    } else {
      Pow2Multiple(k - 1);
    }
  }

  /** Beyond 4096 no power of two keeps the offset within the limit: a multiple of 8192 is too far from the next. */
  lemma LongOffset(raw: nat, alignment: nat)
    requires IsPowerOfTwo(alignment) && 4096 < alignment < W64
    requires raw % 8192 == 0 && raw + MaxOffset(alignment) <= W64
    ensures UserAddress(raw, alignment) - raw > MAX_LINK
  {
    hide UserAddress, And, Pow2, IsPowerOfTwo;
    LongAlignment(alignment);
    UserAddressAligned(raw, alignment);
    UserAddressInSpan(raw, alignment);
    MultipleOf(UserAddress(raw, alignment), alignment, 8192);
    NextMultiple(raw, UserAddress(raw, alignment));
  }

  lemma LongAlignment(alignment: nat)
    requires IsPowerOfTwo(alignment) && 4096 < alignment
    ensures alignment % 8192 == 0
  {
    hide Pow2;
    var k :| alignment == Pow2(k);
    SmallPowers();
    if k < 12 { Pow2Strict(k, 12); }
    Pow2Multiple(k);
  }

  lemma NextMultiple(raw: nat, user: nat)
    requires raw % 8192 == 0 && user % 8192 == 0 && raw < user
    ensures user - raw >= 8192
  {
  }

  lemma SmallPowers()
    ensures Pow2(12) == 4096 && Pow2(13) == 8192
  {
    assert Pow2(6) == 64;
    assert Pow2(12) == 4096;
  }

  /**
   Among powers of two, exactly those up to 4096 give an accepted offset from every 16-aligned
   address, however high the lowest of these addresses is.
   */
  lemma OffsetAcceptedIff(alignment: nat, lowest: nat)
    requires IsPowerOfTwo(alignment) && alignment < W64
    requires lowest % 8192 == 0 && lowest + MaxOffset(alignment) <= W64
    ensures (forall raw: nat :: lowest <= raw && raw % 16 == 0 && raw + MaxOffset(alignment) <= W64 ==>
               UserAddress(raw, alignment) - raw <= MAX_LINK)
            <==> alignment <= 4096
  {
    hide UserAddress, And, Pow2, IsPowerOfTwo;
    if alignment <= 4096 {
      forall raw: nat | raw % 16 == 0 && raw + MaxOffset(alignment) <= W64
        ensures UserAddress(raw, alignment) - raw <= MAX_LINK
      {
        UserOffsetBounds(raw, alignment);
      }
    } else {
      LongOffset(lowest, alignment);
      assert lowest % 16 == 0;
    }
  }

  /**
   Header, back-offset word, payload and footer lie in this order without overlap inside the
   computed size, whenever that size is not the overflow marker.
   */
  lemma PartsFitInTotal(raw: nat, requested: nat, alignment: nat, footer: nat)
    requires requested < W64 && alignment < W64 && footer < W64
    requires MaxOffset(alignment) + footer < W64
    requires var total := CalculateTotalSize(requested, alignment, footer); total != 0 && raw + total <= W64
    ensures var total := CalculateTotalSize(requested, alignment, footer);
      var user := UserAddress(raw, alignment);
      && total == TrueTotal(requested, alignment, footer)
      && raw + HEADER_SIZE <= user - LINK_SIZE
      && user + requested + footer < raw + total
  {
    TotalSizeIsExactIff(requested, alignment, footer);
    UserAddressInSpan(raw, alignment);
  }
}
