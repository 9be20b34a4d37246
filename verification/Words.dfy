/**
 64-bit machine words and little-endian bytes, as unbounded numbers with the wrap-around
 written out. The bitwise AND is defined bit by bit, so that a mask such as `x & ~(a - 1)`
 keeps its meaning and what it computes has to be proved.
 */
module Words {

  const W64: nat := 0x1_0000_0000_0000_0000
  const W32: nat := 0x1_0000_0000

  type Byte = b: nat | b < 256

  function Wrap(x: int): nat { x % W64 }

  lemma WrapSmall(x: nat)
    requires x < W64
    ensures Wrap(x) == x
  {
  }

  function TotalOf(sizes: seq<nat>): nat {
    if sizes == [] then 0 else TotalOf(sizes[..|sizes| - 1]) + sizes[|sizes| - 1]
  }

  function Pow2(k: nat): (p: nat)
    ensures p >= 1
  {
    if k == 0 then 1 else 2 * Pow2(k - 1)
  }

  function AndBit(a: nat, b: nat): nat { if a == 1 && b == 1 then 1 else 0 }

  /** Bitwise AND. */
  function And(x: nat, y: nat): nat {
    if x == 0 || y == 0 then 0 else AndBit(x % 2, y % 2) + 2 * And(x / 2, y / 2)
  }

  /** Bitwise complement of a 64-bit word. */
  function Not64(x: nat): nat
    requires x < W64
  {
    W64 - 1 - x
  }

  lemma Pow2Is64()
    ensures Pow2(64) == W64
  {
    assert Pow2(8) == 256;
    assert Pow2(16) == 0x1_0000;
    assert Pow2(24) == 0x100_0000;
    assert Pow2(32) == W32;
    assert Pow2(40) == 0x100_0000_0000;
    assert Pow2(48) == 0x1_0000_0000_0000;
    assert Pow2(56) == 0x100_0000_0000_0000;
  }

  lemma {:induction false} AndIsBounded(x: nat, y: nat)
    ensures And(x, y) <= x && And(x, y) <= y
  {
    if x != 0 && y != 0 { AndIsBounded(x / 2, y / 2); }
  }

  /** Masking with a complement subtracts what the plain mask keeps. */
  lemma {:induction false} AndComplement(x: nat, y: nat, w: nat)
    requires x < Pow2(w) && y < Pow2(w)
    ensures And(x, Pow2(w) - 1 - y) == x - And(x, y)
  {
    if w > 0 {
      var n := Pow2(w) - 1 - y;
      assert n % 2 == 1 - y % 2 && n / 2 == Pow2(w - 1) - 1 - y / 2;
      AndComplement(x / 2, y / 2, w - 1);
      AndStep(x, n);
      AndStep(x, y);
    }
  }

  lemma AndStep(x: nat, y: nat)
    ensures And(x, y) == AndBit(x % 2, y % 2) + 2 * And(x / 2, y / 2)
  {
  }

  lemma HalvesModulo(x: nat, m: nat)
    requires m > 0
    ensures x % (2 * m) == 2 * ((x / 2) % m) + x % 2
  {
    var q, r := (x / 2) / m, (x / 2) % m;
    assert x / 2 == q * m + r;
    assert x == q * (2 * m) + (2 * r + x % 2);
    ModuloIs(x, 2 * m, q, 2 * r + x % 2);
  }

  lemma ProductAtLeast(d: int, m: int)
    requires m > 0
    ensures d >= 1 ==> d * m >= m
    ensures d <= -1 ==> d * m <= -m
  {
    if d >= 1 {
      assert (d - 1) * m >= 0;
    } else if d <= -1 {
      assert (-1 - d) * m >= 0;
    }
  }

  lemma ModuloIs(x: int, m: int, q: int, r: int)
    requires m > 0 && x == q * m + r && 0 <= r < m
    ensures x % m == r && x / m == q
  {
    var d := x / m - q;
    assert x == (x / m) * m + x % m;
    assert d * m == (x / m) * m - q * m;
    ProductAtLeast(d, m);
  }

  lemma WrapAbsorbs(a: int, b: int)
    ensures Wrap(Wrap(a) + b) == Wrap(a + b)
  {
    var q := a / W64;
    assert a == q * W64 + a % W64;
    ModuloIs(a + b, W64, q + (Wrap(a) + b) / W64, Wrap(Wrap(a) + b));
  }

  lemma WrapOfNegation(a: int, b: int)
    ensures Wrap(b - Wrap(a)) == Wrap(b - a)
  {
    var q := a / W64;
    assert a == q * W64 + a % W64;
    ModuloIs(b - a, W64, (b - Wrap(a)) / W64 - q, Wrap(b - Wrap(a)));
  }

  /** A mask of `k` ones is the remainder modulo 2^k. */
  lemma {:induction false} LowMask(x: nat, k: nat)
    ensures And(x, Pow2(k) - 1) == x % Pow2(k)
  {
    hide And, AndBit;
    if k == 0 {
      NoMask(x);
    } else {
      OnesHalve(k);
      AndStep(x, Pow2(k) - 1);
      LowMask(x / 2, k - 1);
      HalvesModulo(x, Pow2(k - 1));
      LowBit(x);
    }
  }

  lemma LowBit(x: nat)
    ensures AndBit(x % 2, 1) == x % 2
  {
  }

  lemma NoMask(x: nat)
    ensures And(x, Pow2(0) - 1) == x % Pow2(0)
  {
  }

  /** `k` ones are an odd number, and half of it is one fewer of them. */
  lemma OnesHalve(k: nat)
    requires k > 0
    ensures (Pow2(k) - 1) % 2 == 1 && (Pow2(k) - 1) / 2 == Pow2(k - 1) - 1
  {
  }

  lemma LowMask4096(x: nat)
    ensures And(x, 4095) == x % 4096
  {
    assert Pow2(6) == 64;
    assert Pow2(12) == 4096;
    LowMask(x, 12);
  }

  /** Masking a word with a complement. */
  lemma NotMask(x: nat, y: nat)
    requires x < W64 && y < W64
    ensures And(x, Not64(y)) == x - And(x, y)
    ensures And(x, y) <= y
  {
    Pow2Is64();
    AndComplement(x, y, 64);
    AndIsBounded(x, y);
  }

  function Pow256(n: nat): (p: nat)
    ensures p >= 1
  {
    if n == 0 then 1 else 256 * Pow256(n - 1)
  }

  /** The `n` low bytes of `v`, least significant first. */
  function LeBytes(v: nat, n: nat): (s: seq<Byte>)
    ensures |s| == n
  {
    if n == 0 then [] else [v % 256] + LeBytes(v / 256, n - 1)
  }

  function LeValue(s: seq<Byte>): nat {
    if s == [] then 0 else s[0] + 256 * LeValue(s[1..])
  }

  /** Storing a word and loading it back gives the word modulo its width. */
  lemma {:induction false} LeRoundTrip(v: nat, n: nat)
    requires v < Pow256(n)
    ensures LeValue(LeBytes(v, n)) == v
  {
    if n > 0 {
      assert LeBytes(v, n)[1..] == LeBytes(v / 256, n - 1);
      LeRoundTrip(v / 256, n - 1);
    }
  }

  lemma {:induction false} LeDetermines(s: seq<Byte>)
    ensures LeBytes(LeValue(s), |s|) == s
  {
    hide LeValue, LeBytes;
    if s == [] {
      NoBytes(s);
    } else {
      LeDetermines(s[1..]);
      FirstByte(s[0], LeValue(s[1..]), |s| - 1);
      ValueOfFirst(s);
      assert s == [s[0]] + s[1..];
    }
  }

  lemma NoBytes(s: seq<Byte>)
    requires s == []
    ensures LeBytes(LeValue(s), |s|) == s
  {
  }

  lemma ValueOfFirst(s: seq<Byte>)
    requires s != []
    ensures LeValue(s) == s[0] + 256 * LeValue(s[1..])
  {
  }

  lemma FirstByte(b: Byte, v: nat, n: nat)
    ensures LeBytes(b + 256 * v, n + 1) == [b] + LeBytes(v, n)
  {
    assert (b + 256 * v) % 256 == b && (b + 256 * v) / 256 == v;
  }

  function Zeros(n: nat): (s: seq<Byte>)
    ensures |s| == n
  {
    seq(n, _ => 0)
  }

  lemma {:induction false} ZerosAreZero(n: nat)
    ensures LeValue(Zeros(n)) == 0
  {
    if n > 0 {
      assert Zeros(n)[1..] == Zeros(n - 1);
      ZerosAreZero(n - 1);
    }
  }

  lemma {:induction false} ZeroValueIsZeros(s: seq<Byte>)
    requires LeValue(s) == 0
    ensures s == Zeros(|s|)
  {
    if s != [] {
      ZeroValueIsZeros(s[1..]);
      assert s == [s[0]] + s[1..];
    }
  }

  lemma WordSizes()
    ensures Pow256(1) == 256 && Pow256(4) == W32 && Pow256(8) == W64
  {
    assert Pow256(2) == 0x1_0000 && Pow256(3) == 0x100_0000;
    assert Pow256(5) == 0x100_0000_0000 && Pow256(6) == 0x1_0000_0000_0000 && Pow256(7) == 0x100_0000_0000_0000;
  }
}
