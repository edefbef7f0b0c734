/** Device-tree addresses as big-endian 32-bit cells, and their translation through a ranges property. */
module AddressCells {
  import BinMaps

  const MAX_ADDR_CELLS := 4
  const B: int := 0x1_0000_0000

  type cell = x: int | 0 <= x < 0x1_0000_0000

  /** What cell i of four counts for. */
  function Weight(i: nat): int
    requires i <= 3
  {
    if i == 3 then 1 else if i == 2 then B else if i == 1 then B * B else B * B * B
  }

  const TOP: int := B * B * B * B

  /** A digit times its weight. */
  function Scaled(d: int, w: int): int { d * w }

  /** The number that cells i to 3 spell. */
  function Tail(c: seq<cell>, i: nat): (v: int)
    requires |c| == 4 && i <= 4
    ensures 0 <= v < if i == 4 then 1 else Weight(i) * B
    decreases 4 - i
  {
    if i == 4 then 0 else Scaled(c[i], Weight(i)) + Tail(c, i + 1)
  }

  function Value(c: seq<cell>): int
    requires |c| == 4
  {
    Tail(c, 0)
  }

  lemma TailSame(c: seq<cell>, d: seq<cell>, i: nat)
    requires |c| == 4 == |d| && i <= 4 && forall j :: i <= j < 4 ==> c[j] == d[j]
    ensures Tail(c, i) == Tail(d, i)
    decreases 4 - i
  {
    if i < 4 { TailSame(c, d, i + 1); }
  }

  // ---- subtraction ----

  /** The borrow sub_reg has in hand once cells i to 3 are done; the cell and the borrow are added in 32 bits. */
  function Borrow(reg: seq<cell>, sub: seq<cell>, i: nat): (b: int)
    requires |reg| == 4 == |sub| && i <= 4
    ensures b == 0 || b == 1
    decreases 4 - i
  {
    if i == 4 then 0 else if reg[i] < (sub[i] + Borrow(reg, sub, i + 1)) % B then 1 else 0
  }

  /** What the borrows that vanish in that addition are worth. */
  function Lost(reg: seq<cell>, sub: seq<cell>, i: nat): (l: int)
    requires |reg| == 4 == |sub| && i <= 4
    ensures 0 <= l
    decreases 4 - i
  {
    if i == 4 then 0
    else Lost(reg, sub, i + 1) + (if sub[i] + Borrow(reg, sub, i + 1) == B then Weight(i) * B else 0)
  }

  /** What a borrow out of cells i to 3 is worth. */
  function Above(i: nat): int
    requires i <= 4
  {
    if i == 4 then 1 else Weight(i) * B
  }

  /** One cell of sub_reg. */
  lemma CellStep(r: cell, s: cell, b: int)
    requires b == 0 || b == 1
    ensures var taken := (s + b) % B; var b' := if r < taken then 1 else 0;
      0 <= (r - taken) % B < B && (r - taken) % B == r - s - b + b' * B + (if s + b == B then B else 0)
  {
  }

  lemma Distribute(w: int, d: int, r: int, s: int, b: int, b': int, l: int)
    requires d == r - s - b + b' * B + l
    ensures Scaled(d, w) == Scaled(r, w) - Scaled(s, w) - Scaled(b, w) + Scaled(b', w * B) + Scaled(l, w)
  {
    calc {
      d * w;
      (r - s - b + b' * B + l) * w;
      r * w - s * w - b * w + (b' * B) * w + l * w;
      { assert (b' * B) * w == b' * (w * B); }
      r * w - s * w - b * w + b' * (w * B) + l * w;
    }
  }

  /** The state of sub_reg once cells i to 3 are done. */
  ghost predicate Subtracted(now: seq<cell>, before: seq<cell>, sub: seq<cell>, i: nat, borrow: int) {
    && |now| == 4 == |before| && |sub| == 4 && i <= 4 && now[..i] == before[..i] && borrow == Borrow(before, sub, i)
    && Tail(now, i) == Tail(before, i) - Tail(sub, i) + Scaled(borrow, Above(i)) + Lost(before, sub, i)
  }

  lemma TailIs(c: seq<cell>, i: nat)
    requires |c| == 4 && i < 4
    ensures Tail(c, i) == Scaled(c[i], Weight(i)) + Tail(c, i + 1)
  {
  }

  lemma LossIs(reg: seq<cell>, sub: seq<cell>, i: nat)
    requires |reg| == 4 == |sub| && i < 4
    ensures Borrow(reg, sub, i) == if reg[i] < (sub[i] + Borrow(reg, sub, i + 1)) % B then 1 else 0
    ensures Lost(reg, sub, i) ==
      Lost(reg, sub, i + 1) + (if sub[i] + Borrow(reg, sub, i + 1) == B then Weight(i) * B else 0)
  {
  }

  lemma SubtractCell(now: seq<cell>, before: seq<cell>, sub: seq<cell>, i: nat, borrow: int)
    requires i < 4 && Subtracted(now, before, sub, i + 1, borrow)
    ensures var taken := (sub[i] + borrow) % B;
      Subtracted(now[i := (now[i] - taken) % B], before, sub, i, if now[i] < taken then 1 else 0)
  {
    hide Weight, Scaled, Above, Tail, Lost, Borrow;
    var r, s := before[i], sub[i];
    assert now[i] == now[..i + 1][i] == before[..i + 1][i] == r;
    CellStep(r, s, borrow);
    var taken := (s + borrow) % B;
    var b', l := if r < taken then 1 else 0, if s + borrow == B then B else 0;
    var d := (r - taken) % B;
    var now' := now[i := d];
    assert now'[..i] == now[..i + 1][..i] == before[..i + 1][..i] == before[..i];
    TailSame(now', now, i + 1);
    Distribute(Weight(i), d, r, s, borrow, b', l);
    WeightAbove(i);
    ScaledUnit(l, Weight(i));
    TailIs(now', i);
    TailIs(before, i);
    TailIs(sub, i);
    LossIs(before, sub, i);
  }

  lemma ScaledUnit(l: int, w: int)
    ensures l == 0 ==> Scaled(l, w) == 0
    ensures l == B ==> Scaled(l, w) == w * B
  {
  }

  lemma WeightAbove(i: nat)
    requires i < 4
    ensures Above(i + 1) == Weight(i) && Above(i) == Weight(i) * B
  {
  }

  /** sub_reg. */
  method SubReg(reg: array<cell>, sub: seq<cell>) returns (ok: bool)
    requires reg.Length == 4 && |sub| == 4
    modifies reg
    ensures ok == (Borrow(old(reg[..]), sub, 0) == 0)
    ensures Value(reg[..]) == Value(old(reg[..])) - Value(sub) + (if ok then 0 else TOP) + Lost(old(reg[..]), sub, 0)
  {
    ghost var before := reg[..];
    var i, borrow := 3, 0;
    hide Subtracted;
    SubtractNone(before, sub);
    while i >= 0
      invariant -1 <= i <= 3 && Subtracted(reg[..], before, sub, i + 1, borrow)
    {
      var prev_borrow := borrow;
      SubtractedBits(reg[..], before, sub, i + 1, borrow);
      SubtractCell(reg[..], before, sub, i, borrow);
      var taken := (sub[i] + prev_borrow) % B;
      ghost var now := reg[..];
      borrow := if reg[i] < taken then 1 else 0;
      reg[i] := (reg[i] - taken) % B;
      assert reg[..] == now[i := (now[i] - taken) % B];
      i := i - 1;
    }
    SubtractedBits(reg[..], before, sub, 0, borrow);
    ok := borrow == 0;
  }

  lemma SubtractNone(before: seq<cell>, sub: seq<cell>)
    requires |before| == 4 == |sub|
    ensures Subtracted(before, before, sub, 4, 0)
  {
  }

  lemma SubtractedBits(now: seq<cell>, before: seq<cell>, sub: seq<cell>, i: nat, borrow: int)
    requires Subtracted(now, before, sub, i, borrow)
    ensures borrow == 0 || borrow == 1
    ensures i == 0 ==>
      borrow == Borrow(before, sub, 0) && Value(now) == Value(before) - Value(sub) + borrow * TOP + Lost(before, sub, 0)
  {
  }

  /** Cell i of sub is all ones and the cells after it borrow: sub_reg's 32-bit addition drops that borrow. */
  predicate Drops(reg: seq<cell>, sub: seq<cell>, i: nat)
    requires |reg| == 4 == |sub| && i < 4
  {
    sub[i] == B - 1 && Tail(reg, i + 1) < Tail(sub, i + 1)
  }

  predicate BorrowLost(reg: seq<cell>, sub: seq<cell>)
    requires |reg| == 4 == |sub|
  {
    exists i | 0 <= i < 4 :: Drops(reg, sub, i)
  }

  /** Comparing two tails comes down to the first cells, then to the tails behind them. */
  lemma TailOrder(reg: seq<cell>, sub: seq<cell>, i: nat)
    requires |reg| == 4 == |sub| && i < 4
    ensures Tail(reg, i) < Tail(sub, i) <==>
      reg[i] < sub[i] || (reg[i] == sub[i] && Tail(reg, i + 1) < Tail(sub, i + 1))
  {
    TailIs(reg, i);
    TailIs(sub, i);
    WeightAbove(i);
    var w := Weight(i);
    assert 0 <= Tail(reg, i + 1) < w && 0 <= Tail(sub, i + 1) < w by { TailBound(reg, i + 1); TailBound(sub, i + 1); }
    ScaledOrder(reg[i], sub[i], w);
    ScaledOrder(sub[i], reg[i], w);
  }

  lemma TailBound(c: seq<cell>, i: nat)
    requires |c| == 4 && i <= 4
    ensures 0 <= Tail(c, i) < Above(i)
  {
  }

  lemma ScaledOrder(r: int, s: int, w: int)
    requires w > 0
    ensures r < s ==> Scaled(r, w) + w <= Scaled(s, w)
    ensures r == s ==> Scaled(r, w) == Scaled(s, w)
  {
    if r < s {
      var k := s - r - 1;
      NonNegative(k, w);
      assert s * w == r * w + w + k * w;
    }
  }

  lemma NonNegative(k: int, w: int)
    requires 0 <= k && 0 <= w
    ensures 0 <= k * w
  {
  }

  lemma {:induction false} LostWhen(reg: seq<cell>, sub: seq<cell>, i: nat)
    requires |reg| == 4 == |sub| && i <= 4
    ensures Lost(reg, sub, i) == 0 <==> forall j :: i <= j < 4 ==> !Drops(reg, sub, j)
    ensures Lost(reg, sub, i) == 0 ==> (Borrow(reg, sub, i) == 1 <==> Tail(reg, i) < Tail(sub, i))
    decreases 4 - i
  {
    hide Tail, Lost, Borrow, Weight;
    if i < 4 {
      LostWhen(reg, sub, i + 1);
      LossIs(reg, sub, i);
      TailOrder(reg, sub, i);
      WeightPositive(i);
      assert Drops(reg, sub, i) <==> sub[i] == B - 1 && Tail(reg, i + 1) < Tail(sub, i + 1);
      hide Drops;
      assert Lost(reg, sub, i) == 0 <==> Lost(reg, sub, i + 1) == 0 && !Drops(reg, sub, i);
    } else {
      NoCells(reg, sub);
    }
  }

  lemma NoCells(reg: seq<cell>, sub: seq<cell>)
    requires |reg| == 4 == |sub|
    ensures Lost(reg, sub, 4) == 0 && Borrow(reg, sub, 4) == 0 && Tail(reg, 4) == 0 == Tail(sub, 4)
  {
  }

  lemma WeightPositive(i: nat)
    requires i < 4
    ensures Weight(i) * B > 0
  {
  }

  /** sub_reg gives the 128-bit difference and tells whether it is negative exactly when no borrow is dropped. */
  lemma SubExact(before: seq<cell>, sub: seq<cell>, after: seq<cell>, ok: bool)
    requires |before| == 4 == |sub| && |after| == 4 && ok == (Borrow(before, sub, 0) == 0)
    requires Value(after) == Value(before) - Value(sub) + (if ok then 0 else TOP) + Lost(before, sub, 0)
    ensures (Value(after) == Value(before) - Value(sub) + (if ok then 0 else TOP)
      && (ok <==> Value(sub) <= Value(before))) <==> !BorrowLost(before, sub)
    ensures ok && !BorrowLost(before, sub) ==> Value(after) == Value(before) - Value(sub)
  {
    LostWhen(before, sub, 0);
    hide Tail, Lost, Borrow;
  }

  // ---- addition ----

  /** The state of add_reg once cells i to 3 are done. */
  ghost predicate Summed(now: seq<cell>, before: seq<cell>, add: seq<cell>, i: nat, carry: int) {
    && |now| == 4 == |before| && |add| == 4 && i <= 4 && now[..i] == before[..i] && (carry == 0 || carry == 1)
    && Tail(now, i) + Scaled(carry, Above(i)) == Tail(before, i) + Tail(add, i)
  }

  lemma SumCell(now: seq<cell>, before: seq<cell>, add: seq<cell>, i: nat, carry: int)
    requires i < 4 && Summed(now, before, add, i + 1, carry)
    ensures var tmp := now[i] + add[i] + carry; Summed(now[i := tmp % B], before, add, i, tmp / B)
  {
    hide Weight, Scaled, Above, Tail;
    assert now[i] == now[..i + 1][i] == before[..i + 1][i] == before[i];
    var tmp := now[i] + add[i] + carry;
    var now' := now[i := tmp % B];
    assert now'[..i] == now[..i + 1][..i] == before[..i + 1][..i] == before[..i];
    TailSame(now', now, i + 1);
    SumDigit(Weight(i), now[i], add[i], carry);
    WeightAbove(i);
    TailIs(now', i);
    TailIs(before, i);
    TailIs(add, i);
  }

  lemma SumDigit(w: int, r: int, a: int, c: int)
    ensures Scaled((r + a + c) % B, w) + Scaled((r + a + c) / B, w * B) == Scaled(r, w) + Scaled(a, w) + Scaled(c, w)
  {
    var d, q := (r + a + c) % B, (r + a + c) / B;
    calc {
      d * w + q * (w * B);
      { assert q * (w * B) == (q * B) * w; }
      d * w + (q * B) * w;
      (d + q * B) * w;
      { assert d + q * B == r + a + c; }
      (r + a + c) * w;
      r * w + a * w + c * w;
    }
  }

  /** The cells before i count the same in both. */
  lemma {:induction false} SameFront(c: seq<cell>, d: seq<cell>, k: nat, i: nat)
    requires |c| == 4 == |d| && k <= i <= 4 && c[..i] == d[..i]
    ensures Tail(c, k) - Tail(c, i) == Tail(d, k) - Tail(d, i)
    decreases i - k
  {
    if k < i {
      SameFront(c, d, k + 1, i);
      assert c[k] == c[..i][k] == d[..i][k] == d[k];
      TailIs(c, k);
      TailIs(d, k);
      hide Tail, Scaled, Weight;
    }
  }

  /** add_reg: the last naddr cells are added; false when they carry. */
  method AddReg(reg: array<cell>, add: seq<cell>, naddr: nat) returns (ok: bool)
    requires reg.Length == 4 && |add| == 4 && naddr <= 4
    modifies reg
    ensures Value(reg[..]) == Value(old(reg[..])) + Tail(add, 4 - naddr) - (if ok then 0 else Above(4 - naddr))
    ensures ok <==> Tail(old(reg[..]), 4 - naddr) + Tail(add, 4 - naddr) < Above(4 - naddr)
  {
    ghost var before := reg[..];
    hide Summed, Tail;
    var i, carry := 3, 0;
    SumNone(before, add);
    while i >= 4 - naddr
      invariant 3 - naddr <= i <= 3 && Summed(reg[..], before, add, i + 1, carry)
    {
      SumBits(reg[..], before, add, i + 1, carry);
      SumCell(reg[..], before, add, i, carry);
      ghost var now := reg[..];
      var a: int, b: int := reg[i], add[i];
      var tmp := a + b + carry;
      carry := tmp / B;
      var low: cell := tmp % B;
      reg[i] := low;
      assert reg[..] == now[i := low];
      i := i - 1;
    }
    SumDone(reg[..], before, add, 4 - naddr, carry);
    ok := carry == 0;
  }

  lemma SumNone(before: seq<cell>, add: seq<cell>)
    requires |before| == 4 == |add|
    ensures Summed(before, before, add, 4, 0)
  {
  }

  lemma SumBits(now: seq<cell>, before: seq<cell>, add: seq<cell>, i: nat, carry: int)
    requires Summed(now, before, add, i, carry)
    ensures carry == 0 || carry == 1
  {
  }

  lemma SumDone(now: seq<cell>, before: seq<cell>, add: seq<cell>, i: nat, carry: int)
    requires Summed(now, before, add, i, carry)
    ensures carry == 0 || carry == 1
    ensures Value(now) == Value(before) + Tail(add, i) - (if carry == 0 then 0 else Above(i))
    ensures carry == 0 <==> Tail(before, i) + Tail(add, i) < Above(i)
  {
    SameFront(now, before, 0, i);
    TailBound(now, i);
    hide Tail;
    ScaledOne(carry, Above(i));
  }

  /** The low cells are the number's remainder. */
  lemma TailMod(c: seq<cell>, i: nat)
    requires |c| == 4 && i <= 4
    ensures Tail(c, i) == Value(c) % Above(i)
  {
    TailBound(c, i);
    var q := WholeCells(c, i);
    hide Tail, Above;
    assert Scaled(q, Above(i)) == Above(i) * q;
    BinMaps.ModUnique(Value(c), Above(i), q, Tail(c, i));
  }

  /** The cells in front, as a number. */
  lemma {:induction false} WholeCells(c: seq<cell>, i: nat) returns (q: int)
    requires |c| == 4 && i <= 4
    ensures Value(c) == Scaled(q, Above(i)) + Tail(c, i) && Above(i) > 0
    decreases i
  {
    if i == 0 {
      q := 0;
    } else {
      var h := WholeCells(c, i - 1);
      TailIs(c, i - 1);
      q := h * B + c[i - 1];
      AboveStep(h, c[i - 1], i);
    }
  }

  lemma AboveStep(h: int, d: int, i: nat)
    requires 0 < i <= 4
    ensures Above(i) == Weight(i - 1) && Above(i) > 0
    ensures Scaled(h, Above(i - 1)) + Scaled(d, Weight(i - 1)) == Scaled(h * B + d, Above(i))
  {
    var w := Weight(i - 1);
    assert Above(i - 1) == w * B;
    calc {
      Scaled(h, Above(i - 1)) + Scaled(d, w);
      h * (w * B) + d * w;
      { assert h * (w * B) == (h * B) * w; }
      (h * B) * w + d * w;
      (h * B + d) * w;
    }
  }

  lemma ScaledOne(c: int, w: int)
    requires c == 0 || c == 1
    ensures Scaled(c, w) == if c == 0 then 0 else w
  {
  }

  // ---- entries of a ranges property ----

  /** copy_val: cells padded in front with zeros. */
  function Padded(src: seq<cell>): (c: seq<cell>)
    requires |src| <= 4
    ensures |c| == 4
  {
    seq(4, i requires 0 <= i < 4 => if i < 4 - |src| then 0 else src[i - (4 - |src|)])
  }

  lemma PaddedTail(src: seq<cell>)
    requires |src| <= 4
    ensures Tail(Padded(src), 4 - |src|) == Value(Padded(src))
  {
    ZeroFront(Padded(src), 0, 4 - |src|);
  }

  lemma {:induction false} ZeroFront(c: seq<cell>, k: nat, i: nat)
    requires |c| == 4 && k <= i <= 4 && forall j :: 0 <= j < i ==> c[j] == 0
    ensures Tail(c, k) == Tail(c, i)
    decreases i - k
  {
    if k < i {
      ZeroFront(c, k + 1, i);
      TailIs(c, k);
      ScaledZero(Weight(k));
      hide Tail, Scaled, Weight;
    }
  }

  lemma ScaledZero(w: int)
    ensures Scaled(0, w) == 0
  {
  }

  method CopyVal(dest: array<cell>, src: seq<cell>)
    requires dest.Length == 4 && |src| <= 4
    modifies dest
    ensures dest[..] == Padded(src)
  {
    var pad := 4 - |src|;
    for i := 0 to pad
      invariant forall j :: 0 <= j < i ==> dest[j] == 0
    {
      dest[i] := 0;
    }
    for i := 0 to |src|
      invariant forall j :: 0 <= j < pad ==> dest[j] == 0
      invariant forall j :: pad <= j < pad + i ==> dest[j] == src[j - pad]
    {
      dest[pad + i] := src[i];
    }
  }

  /** Equal cells up to i, then a smaller one: a smaller number. */
  lemma {:induction false} FirstDifference(c: seq<cell>, d: seq<cell>, k: nat, i: nat)
    requires |c| == 4 == |d| && k <= i < 4 && c[i] < d[i] && forall j :: 0 <= j < i ==> c[j] == d[j]
    ensures Tail(c, k) < Tail(d, k)
    decreases i - k
  {
    hide Tail;
    TailOrder(c, d, k);
    if k < i { FirstDifference(c, d, k + 1, i); }
  }

  lemma WholeTail(c: seq<cell>, d: seq<cell>)
    requires |c| == 4 == |d|
    ensures Tail(c, 0) == Value(c) && Tail(d, 0) == Value(d) && Above(0) == TOP
  {
  }

  /** compare_reg: the address lies in the range, as 128-bit numbers. */
  method CompareReg(reg: seq<cell>, range: seq<cell>, rangesize: seq<cell>) returns (inside: bool)
    requires |reg| == 4 == |range| && |rangesize| == 4
    ensures inside <==> Value(range) <= Value(reg) < Value(range) + Value(rangesize)
  {
    hide Tail;
    var i := 0;
    while i < 4
      invariant 0 <= i <= 4 && forall j :: 0 <= j < i ==> reg[j] == range[j]
    {
      if reg[i] < range[i] {
        FirstDifference(reg, range, 0, i);
        return false;
      }
      if reg[i] > range[i] {
        FirstDifference(range, reg, 0, i);
        break;
      }
      i := i + 1;
    }
    if i == 4 { TailSame(reg, range, 0); }
    var end := new cell[4](j requires 0 <= j < 4 => range[j]);
    assert end[..] == range;
    var ok := AddReg(end, rangesize, 4);
    WholeTail(range, rangesize);
    TailBound(reg, 0);
    if !ok { return true; }
    i := 0;
    while i < 4
      invariant 0 <= i <= 4 && forall j :: 0 <= j < i ==> reg[j] == end[j]
    {
      if reg[i] < end[i] {
        FirstDifference(reg, end[..], 0, i);
        return true;
      }
      if reg[i] > end[i] {
        FirstDifference(end[..], reg, 0, i);
        return false;
      }
      i := i + 1;
    }
    TailSame(reg, end[..], 0);
    return false;
  }
}
