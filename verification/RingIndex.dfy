/** Indices into a ring whose size is a power of two, and the sequence of bytes it holds. */
module RingIndex {
  import opened BinIndex
  import opened BinMaps
  import opened Bytes

  /** Number of values of the 32-bit index fields. */
  const UINT32_RANGE: int := 0x1_0000_0000

  ghost predicate RingSize(size: int) {
    exists k: nat :: k < 32 && size == Pow2(k)
  }

  /** queue_wrap: the unsigned index masked by size - 1. */
  function Wrap(size: nat, index: int): nat
    requires size > 0
  {
    And(32, index % UINT32_RANGE, size - 1)
  }

  /** The low k bits of x. */
  function Low(x: int, k: nat): nat { x % Pow2(k) }

  lemma LowStep(x: int, k: nat)
    requires k > 0
    ensures Low(x, k) % 2 == x % 2 && Low(x, k) / 2 == Low(x / 2, k - 1)
  {
    ModStep(k, x);
  }

  lemma {:induction false} MaskLow(n: nat, x: nat, k: nat)
    requires k <= n
    ensures And(n, x, Pow2(k) - 1) == Low(x, k)
  {
    hide Low;
    if k == 0 {
      AndZero(n, x);
      LowNone(x);
    } else {
      LowStep(x, k);
      assert Pow2(k) - 1 == 2 * (Pow2(k - 1) - 1) + 1;
      MaskLow(n - 1, x / 2, k - 1);
    }
  }

  /** Unsigned wrap-around does not show through the mask. */
  lemma {:induction false} LowLow(x: int, n: nat, k: nat)
    requires k <= n
    ensures Low(Low(x, n), k) == Low(x, k)
    decreases k
  {
    hide Low;
    if k > 0 {
      LowStep(x, n);
      LowStep(x, k);
      LowStep(Low(x, n), k);
      LowLow(x / 2, n - 1, k - 1);
    } else {
      LowNone(x);
      LowNone(Low(x, n));
    }
  }

  lemma LowNone(x: int)
    ensures Low(x, 0) == 0
  {
  }

  /** queue_wrap is the remainder, for indices that have gone below zero too. */
  lemma WrapMeans(size: nat, index: int)
    requires RingSize(size)
    ensures size > 0 && Wrap(size, index) == index % size < size < UINT32_RANGE
  {
    hide And, Pow2;
    var k: nat :| k < 32 && size == Pow2(k);
    Pow2Literals();
    MaskLow(32, index % UINT32_RANGE, k);
    LowLow(index, 32, k);
    Pow2Mono(k, 32);
  }

  /** The cell an unwrapped position falls on. */
  function Cell(i: int, size: nat): (c: nat)
    requires size > 0
    ensures c < size
  {
    i % size
  }

  lemma CellSmall(i: int, size: nat)
    requires size > 0 && 0 <= i + size && i < 2 * size
    ensures Cell(i, size) == if i < 0 then i + size else if i < size then i else i - size
  {
    ModSmall(i, size);
  }

  lemma CellAdd(a: int, i: int, size: nat)
    requires size > 0
    ensures Cell(Cell(a, size) + i, size) == Cell(a + i, size)
  {
    ModAdd(a, i, size);
  }

  lemma WrapIsCell(size: nat, index: int)
    requires RingSize(size)
    ensures size > 0 && Wrap(size, index) == Cell(index, size) < size < UINT32_RANGE
  {
    WrapMeans(size, index);
  }

  /** Number of bytes from head up to tail. */
  function Count(size: nat, head: int, tail: int): nat
    requires size > 0
  {
    (tail - head) % size
  }

  /** The bytes from head up to tail, oldest first. */
  function Content(buf: seq<byte>, head: int, tail: int): (s: seq<byte>)
    requires |buf| > 0
    ensures |s| == Count(|buf|, head, tail)
  {
    seq(Count(|buf|, head, tail), i requires 0 <= i < Count(|buf|, head, tail) => buf[(head + i) % |buf|])
  }

  lemma CountAt(size: nat, head: int, tail: int)
    requires 0 <= head < size && 0 <= tail < size
    ensures Count(size, head, tail) == if head <= tail then tail - head else size - head + tail
  {
    ModSmall(tail - head, size);
  }

  lemma ModSmall(x: int, size: int)
    requires size > 0 && -size <= x < 2 * size
    ensures x % size == if x < 0 then x + size else if x < size then x else x - size
  {
    if x < 0 {
      ModUnique(x, size, -1, x + size);
    } else if x < size {
      ModUnique(x, size, 0, x);
    } else {
      ModUnique(x, size, 1, x - size);
    }
  }

  lemma ModAdd(a: int, i: int, n: nat)
    requires n > 0
    ensures (a % n + i) % n == (a + i) % n
  {
    var q, r := a / n, (a % n + i) / n;
    assert a + i ==
      n * (q + r) + (a % n + i) % n by { assert a == n * q + a % n && a % n + i == n * r + (a % n + i) % n; }
    ModUnique(a + i, n, q + r, (a % n + i) % n);
  }

  lemma ModSub(a: int, b: int, c: int, n: nat)
    requires n > 0
    ensures (a % n - b % n + c) % n == (a - b + c) % n
  {
    ModAdd(a, c - b % n, n);
    var q := b / n;
    assert b == n * q + b % n;
    var x := a - b + c;
    assert a + c - b % n == x + n * q;
    ModShift(x, q, n);
  }

  lemma ModShift(x: int, q: int, n: nat)
    requires n > 0
    ensures (x + n * q) % n == x % n
  {
    var k := x / n;
    assert x + n * q == n * (k + q) + x % n by { assert n * (k + q) == n * k + n * q; }
    ModUnique(x + n * q, n, k + q, x % n);
  }

  /** Cells less than a whole ring apart are different cells. */
  lemma CellsDiffer(a: int, b: int, n: nat)
    requires n > 0 && a < b < a + n
    ensures a % n != b % n
  {
    var q, r := a / n, b / n;
    if a % n == b % n {
      assert n * (r - q) ==
        b - a by { assert a == n * q + a % n && b == n * r + b % n; assert n * (r - q) == n * r - n * q; }
      Between(n, r - q);
    }
  }

  lemma Between(n: nat, k: int)
    requires n > 0
    ensures n * k <= 0 || n * k >= n
  {
    if k >= 1 { assert n * k >= n; } else { assert n * k <= 0; }
  }
}
