/** Powers of two and the masks that align an address to one. */
module Alignments {
  import opened ChunkLayout
  import opened BinMaps
  import opened BinIndex

  ghost predicate IsPow2(a: int) {
    exists k: nat :: a == Pow2(k)
  }

  lemma {:induction false} AndSelf(n: nat, a: nat)
    requires a < Pow2(n)
    ensures And(n, a, a) == a
  {
    if n > 0 { AndSelf(n - 1, a / 2); }
  }

  /** a & (a - 1) is zero exactly for the powers of two. */
  lemma {:induction false} PowerTest(n: nat, a: nat)
    requires 0 < a < Pow2(n)
    ensures And(n, a, a - 1) == 0 <==> IsPow2(a)
  {
    if a == 1 {
      assert a == Pow2(0);
      AndZero(n, a);
    } else if a % 2 == 1 {
      assert (a - 1) / 2 == a / 2;
      AndSelf(n - 1, a / 2);
      assert a / 2 > 0;
      forall k: nat ensures a != Pow2(k) { }
    } else {
      PowerTest(n - 1, a / 2);
      assert (a - 1) / 2 == a / 2 - 1;
      if IsPow2(a) {
        var k: nat :| a == Pow2(k);
        assert a / 2 == Pow2(k - 1);
      }
      if IsPow2(a / 2) {
        var k: nat :| a / 2 == Pow2(k);
        assert a == Pow2(k + 1);
      }
    }
  }

  lemma ModHalf(x: nat, k: nat)
    requires 0 < k
    ensures x % Pow2(k) == x % 2 + 2 * (x / 2 % Pow2(k - 1))
  {
    ModStep(k, x);
  }

  lemma NegHalf(n: nat, k: nat)
    requires 0 < k <= n
    ensures Neg(n, Pow2(k)) % 2 == 0 && Neg(n, Pow2(k)) / 2 == Neg(n - 1, Pow2(k - 1))
  {
    ModStep(n, 0 - Pow2(k));
    assert (0 - Pow2(k)) / 2 == 0 - Pow2(k - 1);
  }

  lemma {:induction false} AndOnes(n: nat, x: nat)
    requires x < Pow2(n)
    ensures And(n, x, Neg(n, 1)) == x
  {
    if n > 0 {
      ModStep(n, -1);
      assert Neg(n, 1) % 2 == 1 && Neg(n, 1) / 2 == Neg(n - 1, 1) by { assert (-1) / 2 == -1; }
      AndOnes(n - 1, x / 2);
    }
  }

  /** x & -2^k clears the low k bits. */
  lemma {:induction false} MaskDown(n: nat, x: nat, k: nat)
    requires x < Pow2(n) && k <= n
    ensures And(n, x, Neg(n, Pow2(k))) == x - x % Pow2(k)
  {
    if k == 0 {
      AndOnes(n, x);
    } else {
      NegHalf(n, k);
      ModHalf(x, k);
      MaskDown(n - 1, x / 2, k - 1);
    }
  }

  /** (x + a - 1) & -a is the first multiple of the power of two a from x on. */
  function AlignTo(x: nat, a: nat): nat {
    And(SIZE_T_BITS, (x + a - 1) % SIZE_T_RANGE, Neg(SIZE_T_BITS, a))
  }

  lemma UpTo(x: int, a: int)
    requires 0 < a
    ensures var r := x + a - 1 - (x + a - 1) % a; r % a == 0 && x <= r < x + a
  {
    var q := (x + a - 1) / a;
    assert x + a - 1 - (x + a - 1) % a == a * q + 0;
    ModUnique(a * q, a, q, 0);
  }

  lemma AlignToMeans(x: nat, a: nat)
    requires IsPow2(a) && x + a - 1 < SIZE_T_RANGE
    ensures AlignTo(x, a) % a == 0 && x <= AlignTo(x, a) < x + a
  {
    hide And, Neg, Pow2;
    var k: nat :| a == Pow2(k);
    RangeIsPow2();
    if k > SIZE_T_BITS { Pow2Mono(SIZE_T_BITS, k); }
    MaskDown(SIZE_T_BITS, x + a - 1, k);
    UpTo(x, a);
  }

  /** Powers of two divide the larger ones. */
  lemma Pow2Divides(i: nat, k: nat)
    requires i <= k
    ensures Pow2(k) % Pow2(i) == 0
  {
    hide Pow2;
    Pow2Add(i, k - i);
    ModUnique(Pow2(k), Pow2(i), Pow2(k - i), 0);
  }

  /** Between a power of two and its double there is no other. */
  lemma DoublingSkipsNone(k: nat, low: int, b: int)
    requires Pow2(k) / 2 < low <= b && IsPow2(b)
    ensures Pow2(k) <= b
  {
    var j: nat :| b == Pow2(j);
    if j < k { Pow2Mono(j, k); } else if k < j { Pow2Mono(k, j); }
  }

  /** A power of two below the range of size_t is at most half of it. */
  lemma HalfRange(k: nat)
    requires Pow2(k) < SIZE_T_RANGE
    ensures Pow2(k) <= SIZE_T_RANGE / 2
  {
    hide Pow2;
    RangeIsPow2();
    if SIZE_T_BITS < k { Pow2Mono(SIZE_T_BITS, k); }
    if k < SIZE_T_BITS { Pow2Mono(k, SIZE_T_BITS); }
  }

  lemma ChunkIsPow2()
    ensures Pow2(4) == 16 && Pow2(5) == 32 && IsPow2(MIN_CHUNK_SIZE)
  {
    assert Pow2(4) == 16 && Pow2(5) == 32;
  }

  /** The value of a in internal_memalign's doubling loop after k rounds. */
  function Doubling(k: nat): int { 2 * ALIGNMENT * Pow2(k) % SIZE_T_RANGE }

  lemma DoublingIs(k: nat)
    ensures Doubling(k) == if k + 4 < SIZE_T_BITS then Pow2(k + 4) else 0
  {
    hide Pow2;
    ChunkIsPow2();
    RangeIsPow2();
    Pow2Add(4, k);
    if k + 4 < SIZE_T_BITS {
      Pow2Mono(k + 4, SIZE_T_BITS);
    } else {
      Pow2Divides(SIZE_T_BITS, k + 4);
    }
  }

  /** The loop reaches an alignment that is no power of two exactly up to half of size_t's range; above, it
      doubles to zero and runs on for ever. */
  lemma DoublingReaches(alignment: nat)
    requires 0 < alignment < SIZE_T_RANGE && !IsPow2(alignment)
    ensures (exists k: nat :: alignment <= Doubling(k)) <==> alignment <= SIZE_T_RANGE / 2
  {
    hide Pow2, IsPow2, Doubling;
    RangeIsPow2();
    Doubled(SIZE_T_BITS - 1);
    DoublingIs(SIZE_T_BITS - 5);
    forall k: nat ensures Doubling(k) <= SIZE_T_RANGE / 2 {
      DoublingIs(k);
      if k + 4 < SIZE_T_BITS - 1 { Pow2Mono(k + 4, SIZE_T_BITS - 1); }
    }
  }

  lemma InRange(k: nat)
    requires Pow2(k) < SIZE_T_RANGE
    ensures k < SIZE_T_BITS
  {
    hide Pow2;
    RangeIsPow2();
    if SIZE_T_BITS < k { Pow2Mono(SIZE_T_BITS, k); }
  }

  /** The alignment internal_memalign works with: the smallest power of two from the request and a minimum chunk on. */
  method RoundAlignment(alignment: nat) returns (a: nat)
    requires alignment <= SIZE_T_RANGE / 2
    ensures Rounds(alignment, a) && a <= SIZE_T_RANGE / 2
  {
    hide And, Pow2, IsPow2, Doubling;
    RangeIsPow2();
    ChunkIsPow2();
    a := alignment;
    if a < MIN_CHUNK_SIZE { a := MIN_CHUNK_SIZE; }
    PowerTest(SIZE_T_BITS, a);
    if And(SIZE_T_BITS, a, a - 1) != 0 {
      var low := a;
      NotHalfRange(low);
      a := 2 * ALIGNMENT;
      ghost var k := 4;
      DoublingIs(0);
      while a < low
        invariant k >= 4 && a == Doubling(k - 4) == Pow2(k) && a < 2 * low < SIZE_T_RANGE && a / 2 < low
        decreases 2 * low - a
      {
        Doubled(k);
        a := a * 2 % SIZE_T_RANGE;
        k := k + 1;
        DoublingIs(k - 4);
        InRange(k);
      }
      HalfRange(k);
      IsPow2Means(k);
      forall b | IsPow2(b) && low <= b ensures a <= b { DoublingSkipsNone(k, low, b); }
    }
  }

  lemma Doubled(k: nat)
    ensures 2 * Pow2(k) == Pow2(k + 1)
  {
  }

  lemma IsPow2Means(k: nat)
    ensures IsPow2(Pow2(k))
  {
  }

  lemma NotHalfRange(low: int)
    requires low <= SIZE_T_RANGE / 2 && !IsPow2(low)
    ensures 2 * low < SIZE_T_RANGE
  {
    hide Pow2, IsPow2;
    RangeIsPow2();
    IsPow2Means(SIZE_T_BITS - 1);
  }

  /** The alignment internal_memalign rounds a request to. */
  ghost predicate Rounds(alignment: int, a: int) {
    && IsPow2(a) && alignment <= a && MIN_CHUNK_SIZE <= a
    && forall b {:trigger IsPow2(b)} :: IsPow2(b) && alignment <= b && MIN_CHUNK_SIZE <= b ==> a <= b
  }

  /** A multiple of a power of two is one of every smaller power of two. */
  lemma MultipleOfLess(x: nat, a: int, b: int)
    requires IsPow2(a) && IsPow2(b) && b < 2 * a && x % a == 0
    ensures b > 0 && x % b == 0
  {
    var k: nat :| a == Pow2(k);
    var i: nat :| b == Pow2(i);
    if k < i { Pow2Mono(k, i); }
    Pow2Divides(i, k);
    hide Pow2, IsPow2;
    MultipleOfMultiple(x, a, b);
  }

  lemma MultipleOfMultiple(x: int, a: int, b: int)
    requires 0 < a && 0 < b && x % a == 0 && a % b == 0
    ensures x % b == 0
  {
    var q, r := x / a, a / b;
    assert x == b * (r * q) + 0 by { assert x == a * q && a == b * r; assert (b * r) * q == b * (r * q); }
    ModUnique(x, b, r * q, 0);
  }

  /** The aligned spot internal_memalign moves to inside a chunk p of size s. */
  function Spot(p: nat, a: nat): int {
    var br := Mem2Chunk(AlignTo(Chunk2Mem(p), a));
    if br - p >= MIN_CHUNK_SIZE then br else br + a
  }

  lemma SpotAligned(p: nat, a: nat)
    requires IsPow2(a) && MIN_CHUNK_SIZE <= a && Chunk2Mem(p) % a != 0 && Chunk2Mem(p) + a - 1 < SIZE_T_RANGE
    ensures var mem := Chunk2Mem(Spot(p, a));
      mem % a == 0 && mem % 8 == 0 && MIN_CHUNK_SIZE <= Spot(p, a) - p < a + MIN_CHUNK_SIZE
  {
    hide IsPow2, AlignTo;
    AlignToMeans(Chunk2Mem(p), a);
    var x := AlignTo(Chunk2Mem(p), a);
    NextMultiple(x, a);
    EightIsPow2();
    MultipleOfLess(x, a, 8);
    MultipleOfLess(x + a, a, 8);
  }

  /** The over-allocation leaves room for a whole leading chunk and nb bytes. */
  lemma SpotFits(p: nat, s: int, a: nat, nb: int)
    requires IsPow2(a) && MIN_CHUNK_SIZE <= a && p % 8 == 0 && Chunk2Mem(p) % a != 0
    requires nb + a + MIN_CHUNK_SIZE <= s && MIN_CHUNK_SIZE <= nb && p + s <= SIZE_T_RANGE
    ensures Chunk2Mem(Spot(p, a)) % a == 0 && MIN_CHUNK_SIZE <= Spot(p, a) - p < a + MIN_CHUNK_SIZE
      && (Spot(p, a) - p) % 8 == 0
      && nb < s - (Spot(p, a) - p)
  {
    hide IsPow2, Spot;
    SpotAligned(p, a);
    MemAligned(p);
    hide Chunk2Mem;
    Difference(Chunk2Mem(Spot(p, a)), Chunk2Mem(p));
    ChunksApart(Spot(p, a), p);
  }

  lemma MemAligned(p: int)
    requires p % 8 == 0
    ensures Chunk2Mem(p) % 8 == 0
  {
  }

  lemma ChunksApart(p: int, q: int)
    ensures Chunk2Mem(p) - Chunk2Mem(q) == p - q
  {
  }

  lemma Difference(x: int, y: int)
    requires x % 8 == 0 && y % 8 == 0
    ensures (x - y) % 8 == 0
  {
  }

  lemma EightIsPow2()
    ensures IsPow2(8)
  {
    assert 8 == Pow2(3);
  }

  lemma NextMultiple(x: int, a: int)
    requires 0 < a && x % a == 0
    ensures (x + a) % a == 0
  {
    ModUnique(x + a, a, x / a + 1, 0);
  }

  /** mem is aligned to the request rounded up to a power of two, and to every smaller one. */
  ghost predicate AlignedFor(mem: int, alignment: nat) {
    0 <= mem && forall b {:trigger IsPow2(b)} :: IsPow2(b) && b < 2 * alignment ==> b > 0 && mem % b == 0
  }

  lemma EightServes(mem: int, alignment: nat)
    requires 0 <= mem && mem % 8 == 0 && alignment <= 8
    ensures AlignedFor(mem, alignment)
  {
    EightIsPow2();
    hide IsPow2;
    forall b | IsPow2(b) && b < 2 * alignment ensures b > 0 && mem % b == 0 { MultipleOfLess(mem, 8, b); }
  }

  predicate MultipleOf(x: int, a: int) {
    0 <= x && 0 < a && x % a == 0
  }

  lemma RoundedServes(mem: int, alignment: nat, a: nat)
    requires Rounds(alignment, a) && MultipleOf(mem, a)
    ensures AlignedFor(mem, alignment)
  {
    hide IsPow2;
    forall b | IsPow2(b) && b < 2 * alignment ensures b > 0 && mem % b == 0 { MultipleOfLess(mem, a, b); }
  }

  lemma RoundsUnique(alignment: int, a: int)
    requires Rounds(alignment, a)
    ensures forall b {:trigger Rounds(alignment, b)} :: Rounds(alignment, b) ==> b == a
    ensures IsPow2(a) && MIN_CHUNK_SIZE <= a
  {
  }
}
