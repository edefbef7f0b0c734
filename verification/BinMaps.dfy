/** The 32-bit maps of non-empty bins, and the bit tricks that search them.
    A word is a natural number; the operators act on its low n bits. */
module BinMaps {

  function Pow2(n: nat): (p: nat)
    ensures p >= 1
  {
    if n == 0 then 1 else 2 * Pow2(n - 1)
  }

  /** Bit i of m. */
  predicate Has(m: nat, i: nat) {
    if i == 0 then m % 2 == 1 else Has(m / 2, i - 1)
  }

  function And(n: nat, a: nat, b: nat): (r: nat)
    ensures r < Pow2(n)
  {
    if n == 0 then 0 else (if a % 2 == 1 && b % 2 == 1 then 1 else 0) + 2 * And(n - 1, a / 2, b / 2)
  }

  function Or(n: nat, a: nat, b: nat): (r: nat)
    ensures r < Pow2(n)
  {
    if n == 0 then 0 else (if a % 2 == 1 || b % 2 == 1 then 1 else 0) + 2 * Or(n - 1, a / 2, b / 2)
  }

  function Not(n: nat, a: nat): nat {
    if n == 0 then 0 else (if a % 2 == 1 then 0 else 1) + 2 * Not(n - 1, a / 2)
  }

  /** Unsigned negation: the wrapped -a. */
  function Neg(n: nat, a: int): nat {
    (0 - a) % Pow2(n)
  }

  function Shr(a: nat, i: nat): nat {
    if i == 0 then a else Shr(a / 2, i - 1)
  }

  function Shl(n: nat, a: nat, i: nat): nat {
    a * Pow2(i) % Pow2(n)
  }

  lemma {:induction false} HasLogic(n: nat, a: nat, b: nat, i: nat)
    requires i < n
    ensures Has(And(n, a, b), i) <==> Has(a, i) && Has(b, i)
    ensures Has(Or(n, a, b), i) <==> Has(a, i) || Has(b, i)
    ensures Has(Not(n, a), i) <==> !Has(a, i)
  {
    BitHalves(n, a, b);
    if i > 0 {
      HasLogic(n - 1, a / 2, b / 2, i - 1);
      hide And, Or, Not;
    }
  }

  lemma BitHalves(n: nat, a: nat, b: nat)
    requires n > 0
    ensures And(n, a, b) / 2 == And(n - 1, a / 2, b / 2)
      && And(n, a, b) % 2 == (if a % 2 == 1 && b % 2 == 1 then 1 else 0)
    ensures Or(n, a, b) / 2 == Or(n - 1, a / 2, b / 2) && Or(n, a, b) % 2 == (if a % 2 == 1 || b % 2 == 1 then 1 else 0)
    ensures Not(n, a) / 2 == Not(n - 1, a / 2) && Not(n, a) % 2 == (if a % 2 == 1 then 0 else 1)
  {
  }

  lemma {:induction false} HasShr(a: nat, k: nat, i: nat)
    ensures Has(Shr(a, k), i) <==> Has(a, k + i)
  {
    if k > 0 { HasShr(a / 2, k - 1, i); }
  }

  lemma {:induction false} HasLow(n: nat, a: nat, i: nat)
    requires i < n
    ensures Has(a % Pow2(n), i) <==> Has(a, i)
  {
    ModStep(n, a);
    if i > 0 { HasLow(n - 1, a / 2, i - 1); }
  }

  lemma ModStep(n: nat, a: int)
    requires n > 0
    ensures (a % Pow2(n)) % 2 == a % 2 && (a % Pow2(n)) / 2 == (a / 2) % Pow2(n - 1)
  {
    var p := Pow2(n - 1);
    var q := a / (2 * p);
    var r := a % (2 * p);
    assert a == 2 * (p * q) + r by { assert a == (2 * p) * q + r; }
    assert a / 2 == p * q + r / 2;
    ModUnique(a / 2, p, q, r / 2);
  }

  lemma ModUnique(a: int, p: int, q: int, r: int)
    requires p > 0 && a == p * q + r && 0 <= r < p
    ensures a % p == r && a / p == q
  {
    var d := q - a / p;
    assert p * d == a % p - r;
    assert d >= 1 ==> p * d >= p;
    assert d <= -1 ==> p * d <= -p;
  }

  /** Some bit of a below i is set. */
  predicate HasBelow(a: nat, i: nat) {
    i > 0 && (a % 2 == 1 || HasBelow(a / 2, i - 1))
  }

  lemma {:induction false} BelowIf(a: nat, i: nat, j: nat)
    requires j < i && Has(a, j)
    ensures HasBelow(a, i)
  {
    if j > 0 { BelowIf(a / 2, i - 1, j - 1); }
  }

  lemma {:induction false} BelowGives(a: nat, i: nat) returns (j: nat)
    requires HasBelow(a, i)
    ensures j < i && Has(a, j)
  {
    if a % 2 == 1 {
      j := 0;
    } else {
      var k := BelowGives(a / 2, i - 1);
      j := k + 1;
    }
  }

  /** -a keeps a's lowest set bit, clears the bits below it and flips the bits above it. */
  lemma {:induction false} HasNeg(n: nat, a: int, i: nat)
    requires i < n && a >= 0
    ensures Has(Neg(n, a), i) <==> Has(a, i) != HasBelow(a, i)
  {
    ModStep(n, 0 - a);
    if i > 0 {
      if a % 2 == 0 {
        assert (0 - a) / 2 == 0 - a / 2;
        HasNeg(n - 1, a / 2, i - 1);
      } else {
        assert (0 - a) / 2 == 0 - a / 2 - 1;
        HasComplement(n - 1, a / 2, i - 1);
      }
    }
  }

  /** -a - 1 is ~a. */
  lemma {:induction false} HasComplement(n: nat, a: int, i: nat)
    requires i < n && a >= 0
    ensures Has((0 - a - 1) % Pow2(n), i) <==> !Has(a, i)
  {
    ModStep(n, 0 - a - 1);
    if i > 0 {
      assert (0 - a - 1) / 2 == 0 - a / 2 - 1;
      HasComplement(n - 1, a / 2, i - 1);
    }
  }

  lemma {:induction false} ShlStep(n: nat, a: int, k: nat)
    requires 0 < k && 0 < n && a >= 0
    ensures Shl(n, a, k) % 2 == 0 && Shl(n, a, k) / 2 == Shl(n - 1, a, k - 1)
  {
    ModStep(n, a * Pow2(k));
    assert a * Pow2(k) == 2 * (a * Pow2(k - 1));
  }

  lemma {:induction false} HasShl(n: nat, a: int, k: nat, i: nat)
    requires i < n && a >= 0
    ensures Has(Shl(n, a, k), i) <==> k <= i && Has(a, i - k)
  {
    if k == 0 {
      HasLow(n, a, i);
    } else {
      ShlStep(n, a, k);
      if i > 0 { HasShl(n - 1, a, k - 1, i - 1); }
    }
  }

  // ---- binmap_t: 32 bits ----

  function Bit(i: nat): nat { Shl(32, 1, i) }

  function LeastBit(x: nat): nat { And(32, x, Neg(32, x)) }

  function LeftBits(x: nat): nat { Or(32, Shl(32, x, 1), Neg(32, Shl(32, x, 1))) }

  /** ffs(x) - 1, for x with a bit set at or above i. */
  function Bit2Idx(x: nat, i: nat := 0): (k: nat)
    requires i < 32
    ensures i <= k < 32 && (k < 31 ==> Has(x, k)) && forall j: nat :: i <= j < k ==> !Has(x, j)
    decreases 32 - i
  {
    if i == 31 || Has(x, i) then i else Bit2Idx(x, i + 1)
  }

  lemma OneBit(i: nat)
    ensures Has(1, i) <==> i == 0
  {
    if i > 0 { ZeroBits(i - 1); }
  }

  lemma {:induction false} ZeroBits(i: nat)
    ensures !Has(0, i)
  {
    if i > 0 { ZeroBits(i - 1); }
  }

  lemma BitMeans(i: nat, j: nat)
    requires i < 32 && j < 32
    ensures Has(Bit(i), j) <==> i == j
  {
    HasShl(32, 1, i, j);
    if i <= j { OneBit(j - i); }
  }

  /** Marking and clearing a bin changes that bin only. */
  lemma MarkClear(m: nat, i: nat, j: nat)
    requires i < 32 && j < 32
    ensures Has(Or(32, m, Bit(i)), j) <==> i == j || Has(m, j)
    ensures Has(And(32, m, Not(32, Bit(i))), j) <==> i != j && Has(m, j)
  {
    HasLogic(32, m, Bit(i), j);
    HasLogic(32, m, Not(32, Bit(i)), j);
    HasLogic(32, Bit(i), 0, j);
    BitMeans(i, j);
  }

  lemma HasLeast(x: nat, j: nat)
    requires j < 32
    ensures Has(LeastBit(x), j) <==> Has(x, j) && !HasBelow(x, j)
  {
    HasLogic(32, x, Neg(32, x), j);
    HasNeg(32, x, j);
  }

  /** least_bit followed by compute_bit2idx finds the first marked bin. */
  lemma FirstMarked(x: nat, k: nat)
    requires k < 32 && Has(x, k)
    ensures var i := Bit2Idx(LeastBit(x)); i <= k && Has(x, i) && forall j: nat :: j < i ==> !Has(x, j)
  {
    hide LeastBit, Has;
    var f := Bit2Idx(x);
    HasLeast(x, f);
    if HasBelow(x, f) { var j := BelowGives(x, f); }
    assert Has(LeastBit(x), f);
    var i := Bit2Idx(LeastBit(x));
    HasLeast(x, i);
    if i < f { BelowIf(x, f, i); }
    forall j: nat | j < i ensures !Has(x, j) { }
  }

  lemma BitAfter(idx: nat, i: nat)
    requires idx < 32 && i < 32
    ensures Has(Shl(32, Bit(idx), 1), i) <==> i == idx + 1
  {
    HasShl(32, Bit(idx), 1, i);
    hide Shl, Bit, Has;
    if i > 0 { BitMeans(idx, i - 1); }
  }

  /** left_bits(idx2bit(idx)) & m keeps the bins after idx. */
  lemma LeftMarked(m: nat, idx: nat, j: nat)
    requires idx < 32 && j < 32
    ensures Has(And(32, LeftBits(Bit(idx)), m), j) <==> idx < j && Has(m, j)
  {
    var b := Shl(32, Bit(idx), 1);
    HasLogic(32, b, Neg(32, b), j);
    HasNeg(32, b, j);
    HasLogic(32, LeftBits(Bit(idx)), m, j);
    BitAfter(idx, j);
    hide Shl, Has, And, Or, Neg, HasBelow;
    if HasBelow(b, j) {
      var i := BelowGives(b, j);
      BitAfter(idx, i);
    } else if idx + 1 < j {
      BitAfter(idx, idx + 1);
      BelowIf(b, j, idx + 1);
    }
  }

  lemma {:induction false} NoneMarked(n: nat, x: nat)
    requires x < Pow2(n) && forall i: nat :: i < n ==> !Has(x, i)
    ensures x == 0
  {
    if n > 0 {
      assert !Has(x, 0);
      forall i: nat | i < n - 1 ensures !Has(x / 2, i) { assert !Has(x, i + 1); }
      NoneMarked(n - 1, x / 2);
    }
  }

  /** A non-zero map has a marked bin. */
  lemma SomeMarked(x: nat) returns (k: nat)
    requires 0 < x < Pow2(32)
    ensures k < 32 && Has(x, k)
  {
    if forall i: nat :: i < 32 ==> !Has(x, i) { NoneMarked(32, x); }
    k :| k < 32 && Has(x, k);
  }

  // ---- the window mspace_malloc takes on smallmap, from the bin of the padded request up ----

  lemma LowTwo(n: nat, x: nat)
    requires n >= 2
    ensures And(n, x, 3) != 0 <==> Has(x, 0) || Has(x, 1)
    ensures And(n, Not(n, x), 1) == if Has(x, 0) then 0 else 1
  {
    AndZero(n - 2, x / 2 / 2);
    AndZero(n - 1, Not(n, x) / 2);
    var one: nat := 1;
    assert Has(x, one) == Has(x / 2, 0);
    assert And(n, x, 3) == x % 2 + 2 * And(n - 1, x / 2, 1);
  }

  lemma {:induction false} AndZero(n: nat, x: nat)
    ensures And(n, x, 0) == 0
  {
    if n > 0 { AndZero(n - 1, x / 2); }
  }

  /** smallbits & 0x3 tests bins idx and idx + 1; ~smallbits & 1 steps to the second one. */
  lemma Window(m: nat, idx: nat)
    ensures var w := Shr(m, idx);
      && (And(32, w, 3) != 0 <==> Has(m, idx) || Has(m, idx + 1))
      && And(32, Not(32, w), 1) == if Has(m, idx) then 0 else 1
  {
    LowTwo(32, Shr(m, idx));
    hide And, Not;
    HasShr(m, idx, 0);
    HasShr(m, idx, 1);
  }

  /** A marked bin at or above idx shows in smallmap >> idx. */
  lemma WindowNonZero(m: nat, idx: nat, j: nat)
    requires idx <= j && Has(m, j)
    ensures Shr(m, idx) != 0
  {
    HasShr(m, idx, j - idx);
    ZeroBits(j - idx);
  }

  lemma {:induction false} ShrBound(n: nat, m: nat, idx: nat)
    requires m < Pow2(n)
    ensures Shr(m, idx) < Pow2(n)
  {
    if idx > 0 { ShrBound(n, m / 2, idx - 1); }
  }

  lemma {:induction false} HasBound(n: nat, m: nat, j: nat)
    requires m < Pow2(n) && Has(m, j)
    ensures j < n
  {
    if n == 0 { ZeroBits(j); } else if j > 0 { HasBound(n - 1, m / 2, j - 1); }
  }

  /** (smallbits << idx) & left_bits(idx2bit(idx)) keeps the marked bins after idx. */
  lemma WindowLeft(m: nat, idx: nat, j: nat)
    requires idx < 32 && j < 32
    ensures Has(And(32, Shl(32, Shr(m, idx), idx), LeftBits(Bit(idx))), j) <==> idx < j && Has(m, j)
  {
    LeftMarked(Shl(32, Shr(m, idx), idx), idx, j);
    HasLogic(32, LeftBits(Bit(idx)), Shl(32, Shr(m, idx), idx), j);
    HasLogic(32, Shl(32, Shr(m, idx), idx), LeftBits(Bit(idx)), j);
    HasShl(32, Shr(m, idx), idx, j);
    if idx <= j { HasShr(m, idx, j - idx); }
  }

  /** The bin of an exact or next-size fit: idx plus ~smallbits & 1. */
  lemma WindowHit(m: nat, idx: nat)
    requires m < Pow2(32) && And(32, Shr(m, idx), 3) != 0
    ensures var i := idx + And(32, Not(32, Shr(m, idx)), 1);
      i < 32 && Has(m, i) && idx <= i <= idx + 1 && forall j: nat :: idx <= j < i ==> !Has(m, j)
  {
    hide And, Not, Shr, Has, Pow2;
    Window(m, idx);
    HasBound(32, m, idx + And(32, Not(32, Shr(m, idx)), 1));
  }

  /** The first marked bin when neither idx nor idx + 1 is marked but some later one is. */
  lemma WindowNext(m: nat, idx: nat)
    requires m < Pow2(32) && idx < 32 && And(32, Shr(m, idx), 3) == 0 && Shr(m, idx) != 0
    ensures var i := Bit2Idx(LeastBit(And(32, Shl(32, Shr(m, idx), idx), LeftBits(Bit(idx)))));
      idx + 2 <= i < 32 && Has(m, i) && forall j: nat :: idx <= j < i ==> !Has(m, j)
  {
    hide And, Not, Shr, Shl, Has, Pow2, LeftBits, Bit, LeastBit;
    var l := And(32, Shl(32, Shr(m, idx), idx), LeftBits(Bit(idx)));
    Window(m, idx);
    ShrBound(32, m, idx);
    var k := SomeMarked(Shr(m, idx));
    HasShr(m, idx, k);
    HasBound(32, m, idx + k);
    WindowLeft(m, idx, idx + k);
    FirstMarked(l, idx + k);
    var i := Bit2Idx(LeastBit(l));
    WindowLeft(m, idx, i);
    forall j: nat | idx <= j < i ensures !Has(m, j) { WindowLeft(m, idx, j); }
  }

  lemma WindowEmpty(m: nat, idx: nat)
    requires Shr(m, idx) == 0
    ensures forall j: nat :: idx <= j ==> !Has(m, j)
  {
    forall j: nat | idx <= j ensures !Has(m, j) { if Has(m, j) { WindowNonZero(m, idx, j); } }
  }

  /** smallmap_is_marked and treemap_is_marked. */
  function IsMarked(m: nat, i: nat): bool { And(32, m, Bit(i)) != 0 }

  lemma MarkedMeans(m: nat, i: nat)
    requires i < 32
    ensures IsMarked(m, i) <==> Has(m, i)
  {
    hide And, Bit;
    HasLogic(32, m, Bit(i), i);
    BitMeans(i, i);
    if Has(m, i) {
      ZeroBits(i);
    } else if IsMarked(m, i) {
      var k := SomeMarked(And(32, m, Bit(i)));
      HasLogic(32, m, Bit(i), k);
      BitMeans(i, k);
    }
  }
}
