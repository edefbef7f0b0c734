/** Which bin a chunk size belongs to, and the bits of a size that steer the descent of its tree. */
module BinIndex {
  import opened ChunkLayout
  import opened BinMaps

  function IsSmall(s: int): bool { s / 8 < 32 }

  /** SIZE_T_BITSIZE - clz(x) - 1. */
  function Log2(x: nat): (k: nat)
    requires x > 0
  {
    if x < 2 then 0 else 1 + Log2(x / 2)
  }

  /** compute_tree_index. */
  function TreeIndex(s: nat): (i: nat)
  {
    var x := s / 256;
    if x == 0 then 0
    else if x > 0xFFFF then 31
    else
      var k := Log2(x);
      2 * k + s / Pow2(k + 7) % 2
  }

  /** minsize_for_tree_index; its two bits do not meet, so | is +. */
  function MinSize(i: nat): nat {
    Pow2(i / 2 + 8) + i % 2 * Pow2(i / 2 + 7)
  }

  lemma {:induction false} Log2Means(x: nat)
    requires x > 0
    ensures Pow2(Log2(x)) <= x < 2 * Pow2(Log2(x))
  {
    if x >= 2 { Log2Means(x / 2); }
  }

  lemma {:induction false} Pow2Mono(a: nat, b: nat)
    requires a < b
    ensures 2 * Pow2(a) <= Pow2(b)
  {
    if a + 1 < b { Pow2Mono(a, b - 1); }
  }

  lemma {:induction false} Pow2Add(a: nat, b: nat)
    ensures Pow2(a + b) == Pow2(a) * Pow2(b)
  {
    if a > 0 { Pow2Add(a - 1, b); }
  }

  lemma MinSizes(k: nat)
    ensures MinSize(2 * k) == Pow2(k + 8)
    ensures MinSize(2 * k + 1) == 3 * Pow2(k + 7)
    ensures MinSize(2 * k + 2) == 4 * Pow2(k + 7)
    ensures Pow2(k + 8) == 2 * Pow2(k + 7)
  {
    assert (2 * k + 1) / 2 == k && (2 * k + 2) / 2 == k + 1;
  }

  lemma {:induction false} PowFromEight(k: nat)
    ensures Pow2(k + 8) >= 256
  {
    if k == 0 { assert Pow2(8) == 256; } else { PowFromEight(k - 1); }
  }

  lemma MinSizeGrows(i: nat)
    ensures 256 <= MinSize(i) < MinSize(i + 1)
  {
    hide Pow2, MinSize;
    var k := i / 2;
    MinSizes(k);
    PowFromEight(k);
    if i % 2 == 0 { assert i == 2 * k; } else { assert i == 2 * k + 1; }
  }

  lemma {:induction false} MinSizeMono(i: nat, j: nat)
    requires i <= j
    ensures MinSize(i) <= MinSize(j)
  {
    if i < j {
      MinSizeMono(i, j - 1);
      MinSizeGrows(j - 1);
    }
  }

  lemma DivBounds(s: int, p: int)
    requires p > 0
    ensures p * (s / p) <= s < p * (s / p) + p
  {
  }

  lemma DivUnique(s: int, p: int, q: int)
    requires p > 0 && p * q <= s < p * q + p
    ensures s / p == q
  {
    ModUnique(s, p, q, s - p * q);
  }

  lemma QuotientTwoThree(s: int, p: int)
    requires p > 0 && 2 * p <= s < 4 * p
    ensures s / p == (if s < 3 * p then 2 else 3)
  {
    DivUnique(s, p, if s < 3 * p then 2 else 3);
  }

  lemma Pow2Literals()
    ensures Pow2(7) == 0x80 && Pow2(8) == 0x100 && Pow2(15) == 0x8000 && Pow2(22) == 0x400000 && Pow2(23) == 0x800000
    ensures Pow2(32) == 0x1_0000_0000 && Pow2(64) == 0x1_0000_0000_0000_0000
  {
    assert Pow2(7) == 0x80 && Pow2(8) == 0x100;
    Pow2Add(7, 8);
    Pow2Add(7, 15);
    Pow2Add(8, 8);
    Pow2Add(16, 16);
    Pow2Add(32, 32);
  }

  lemma Log2Range(x: nat)
    requires 1 <= x <= 0xFFFF
    ensures Log2(x) <= 15
  {
    Log2Means(x);
    Pow2Literals();
    hide Pow2, Log2;
    var k := Log2(x);
    if k >= 16 { Pow2Mono(15, k); }
  }

  lemma PowTimes256(k: nat)
    ensures Pow2(k + 8) == 2 * Pow2(k + 7) == 256 * Pow2(k)
  {
    Pow2Add(k, 8);
    Pow2Literals();
    assert Pow2(k + 8) == 2 * Pow2(k + 7);
  }

  lemma MidBounds(s: nat, k: nat)
    requires 1 <= s / 256 <= 0xFFFF && k == Log2(s / 256)
    ensures k <= 15 && 2 * Pow2(k + 7) <= s < 4 * Pow2(k + 7) && Pow2(k + 8) == 2 * Pow2(k + 7)
  {
    hide Log2, Pow2;
    Log2Range(s / 256);
    Log2Means(s / 256);
    PowTimes256(k);
  }

  lemma TreeIndexMid(s: nat, k: nat)
    requires 1 <= s / 256 <= 0xFFFF && k == Log2(s / 256)
    ensures TreeIndex(s) == 2 * k + (if s < 3 * Pow2(k + 7) then 0 else 1) && k <= 15
    ensures 2 * Pow2(k + 7) <= s < 4 * Pow2(k + 7) && Pow2(k + 8) == 2 * Pow2(k + 7)
  {
    hide Log2, Pow2;
    MidBounds(s, k);
    QuotientTwoThree(s, Pow2(k + 7));
  }

  lemma TreeIndexTop(s: nat)
    requires s / 256 > 0xFFFF
    ensures TreeIndex(s) == 31 && MinSize(31) <= s
  {
    hide Log2, Pow2, MinSize;
    MinSizes(15);
    Pow2Literals();
  }

  /** A chunk lies in bin i exactly when its size is in bin i's range. */
  lemma TreeIndexMeans(s: nat)
    requires 256 <= s
    ensures var i := TreeIndex(s); i < 32 && MinSize(i) <= s && (i < 31 ==> s < MinSize(i + 1))
  {
    hide Log2, Pow2, MinSize, TreeIndex;
    if s / 256 > 0xFFFF {
      TreeIndexTop(s);
    } else {
      var k := Log2(s / 256);
      TreeIndexMid(s, k);
      MinSizes(k);
      if s < 3 * Pow2(k + 7) { assert TreeIndex(s) == 2 * k; } else { assert TreeIndex(s) == 2 * k + 1; }
    }
  }

  /** Sizes in a lower bin are smaller. */
  lemma LowerBinSmaller(s: nat, t: nat)
    requires 256 <= s && 256 <= t && TreeIndex(s) < TreeIndex(t)
    ensures s < t
  {
    TreeIndexMeans(s);
    TreeIndexMeans(t);
    MinSizeMono(TreeIndex(s) + 1, TreeIndex(t));
    hide MinSize, TreeIndex;
  }

  // ---- the bits below the bin's leading ones ----

  /** bit_for_tree_index. */
  function FirstBit(i: nat): nat
  {
    if i == 31 then SIZE_T_BITS - 1 else i / 2 + 6
  }

  /** leftshift_for_tree_index. */
  function LeftShift(i: nat): nat
    requires i < 32
  {
    if i == 31 then 0 else SIZE_T_BITS - 1 - (i / 2 + 6)
  }

  /** What the first d steps down the tree of bin i have looked at of size s. */
  function Prefix(s: int, i: nat, d: nat): int
  {
    if d <= FirstBit(i) then s / Pow2(FirstBit(i) + 1 - d) else s
  }

  lemma DivDiv(s: int, p: int)
    requires p > 0
    ensures s / p / 2 == s / (2 * p)
  {
    DivBounds(s, p);
    var u := s / p;
    var v := u / 2;
    assert (2 * p) * v == p * (2 * v);
    assert u == 2 * v || u == 2 * v + 1;
    assert p * (2 * v + 1) == p * (2 * v) + p;
    DivUnique(s, 2 * p, v);
  }

  lemma PrefixStep(s: int, i: nat, d: nat)
    requires d <= FirstBit(i)
    ensures Prefix(s, i, d) == Prefix(s, i, d + 1) / 2
  {
    DivDiv(s, Pow2(FirstBit(i) - d));
  }

  lemma DivMono(s: int, t: int, p: int)
    requires p > 0 && s <= t
    ensures s / p <= t / p
  {
    var d := t / p - s / p;
    assert t - s == p * d + (t % p - s % p);
    assert d <= -1 ==> p * d <= -p;
  }

  lemma PrefixMono(s: int, t: int, i: nat, d: nat)
    requires s <= t
    ensures Prefix(s, i, d) <= Prefix(t, i, d)
  {
    if d <= FirstBit(i) { DivMono(s, t, Pow2(FirstBit(i) + 1 - d)); }
  }

  lemma RootOfLast(s: int)
    requires 256 <= s < SIZE_T_RANGE
    ensures Prefix(s, 31, 0) == 0
  {
    Pow2Literals();
    hide Pow2;
    assert Pow2(FirstBit(31) + 1) == SIZE_T_RANGE;
    DivUnique(s, SIZE_T_RANGE, 0);
  }

  lemma RootOfOther(s: int)
    requires 256 <= s < SIZE_T_RANGE && TreeIndex(s) != 31
    ensures Prefix(s, TreeIndex(s), 0) == 2 + TreeIndex(s) % 2
  {
    var i := TreeIndex(s);
    var k := Log2(s / 256);
    TreeIndexMid(s, k);
    hide Log2, Pow2, TreeIndex;
    assert FirstBit(i) + 1 == k + 7;
    QuotientTwoThree(s, Pow2(k + 7));
  }

  /** All sizes of a bin share the prefix of the root. */
  lemma RootPrefix(s: int)
    requires 256 <= s < SIZE_T_RANGE
    ensures Prefix(s, TreeIndex(s), 0) == (if TreeIndex(s) == 31 then 0 else 2 + TreeIndex(s) % 2)
  {
    hide Prefix;
    if TreeIndex(s) == 31 { RootOfLast(s); } else { RootOfOther(s); }
  }

  // ---- the shifted key: each step tests its top bit, then shifts it left ----

  /** The sizebits variable after d steps: size << leftshift, then << 1 per step, wrapping. */
  function Key(s: int, i: nat, d: nat): int
    requires i < 32
  {
    s * Pow2(LeftShift(i) + d) % SIZE_T_RANGE
  }

  /** (sizebits >> (SIZE_T_BITSIZE - 1)) & 1. */
  function TopBit(key: int): int { key / (SIZE_T_RANGE / 2) % 2 }

  function ShiftKey(key: int): int { key * 2 % SIZE_T_RANGE }

  lemma KeyStep(s: int, i: nat, d: nat)
    requires i < 32
    ensures ShiftKey(Key(s, i, d)) == Key(s, i, d + 1)
  {
    var x := s * Pow2(LeftShift(i) + d);
    assert s * Pow2(LeftShift(i) + d + 1) == 2 * x;
    hide Pow2;
    var y := x % SIZE_T_RANGE;
    var z := 2 * y % SIZE_T_RANGE;
    var q := x / SIZE_T_RANGE;
    var c := 2 * y / SIZE_T_RANGE;
    assert x == SIZE_T_RANGE * q + y;
    assert 2 * y == SIZE_T_RANGE * c + z;
    assert 2 * x == SIZE_T_RANGE * (2 * q + c) + z;
    ModUnique(2 * x, SIZE_T_RANGE, 2 * q + c, z);
  }

  lemma RangeIsPow2()
    ensures SIZE_T_RANGE == Pow2(SIZE_T_BITS) == 2 * Pow2(SIZE_T_BITS - 1)
  {
    Pow2Literals();
  }

  lemma Scaled(p: int, u: int, r: int, w: int, h: int)
    requires h == p * w
    ensures (p * u + r) * w == h * u + r * w
  {
    assert (p * u + r) * w == p * u * w + r * w;
    assert p * u * w == p * w * u;
  }

  lemma ScaledLess(p: int, r: int, w: int, h: int)
    requires 0 <= r < p && 0 < w && h == p * w
    ensures 0 <= r * w < h
  {
    assert (p - r) * w > 0;
    assert (p - r) * w == p * w - r * w;
  }

  lemma ScaledBit(s: int, p: int, w: int, b: int, h: int)
    requires p > 0 && w > 0 && h == p * w && s / p % 2 == b
    ensures s * w % (2 * h) / h == b
  {
    var u, r := s / p, s % p;
    var v := u / 2;
    assert s == p * u + r && u == 2 * v + b;
    Scaled(p, u, r, w, h);
    ScaledLess(p, r, w, h);
    BitOf(s * w, h, v, b, r * w);
  }

  lemma BitOf(x: int, h: int, v: int, b: int, r: int)
    requires x == h * (2 * v + b) + r && 0 <= r < h && 0 <= b <= 1
    ensures x % (2 * h) / h == b
  {
    var k := h * b + r;
    assert h * (2 * v + b) == 2 * h * v + h * b;
    ModUnique(x, 2 * h, v, k);
    ModUnique(k, h, b, r);
  }

  /** The bit tested after d steps is the last one of the next prefix. */
  lemma KeyBit(s: int, i: nat, d: nat)
    requires i < 32 && d <= FirstBit(i)
    ensures TopBit(Key(s, i, d)) == Prefix(s, i, d + 1) % 2
  {
    RangeIsPow2();
    var e := FirstBit(i) - d;
    var w := LeftShift(i) + d;
    assert e + w == SIZE_T_BITS - 1;
    Pow2Add(e, w);
    var b := s / Pow2(e) % 2;
    var h := SIZE_T_RANGE / 2;
    hide Pow2;
    ScaledBit(s, Pow2(e), Pow2(w), b, h);
  }
}
