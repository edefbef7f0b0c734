/** Fields of a 32-bit word, as the set_bf and get_bf macros write and read them. */
module BitFields {
  import opened BinMaps
  import opened BinIndex

  /** A mask, its shift, and how many bits the mask covers from there. */
  datatype Field = Field(mask: nat, shift: nat, width: nat)

  predicate IsField(f: Field) {
    f.shift + f.width <= 32 && f.mask == Shl(32, Pow2(f.width) - 1, f.shift)
  }

  function SetBf(v: nat, f: Field, x: nat): (r: nat)
    ensures r < Pow2(32)
  {
    Or(32, And(32, v, Not(32, f.mask)), And(32, Shl(32, x, f.shift), f.mask))
  }

  function GetBf(v: nat, f: Field): nat {
    Shr(And(32, v, f.mask), f.shift)
  }

  predicate Covers(f: Field, i: nat) { f.shift <= i < f.shift + f.width }

  predicate Apart(f: Field, g: Field) {
    f.shift + f.width <= g.shift || g.shift + g.width <= f.shift
  }

  lemma {:induction false} HasOnes(w: nat, i: nat)
    ensures Has(Pow2(w) - 1, i) <==> i < w
  {
    if w == 0 {
      ZeroBits(i);
    } else {
      assert Pow2(w) - 1 == 2 * (Pow2(w - 1) - 1) + 1;
      if i > 0 { HasOnes(w - 1, i - 1); }
    }
  }

  lemma MaskBits(f: Field, i: nat)
    requires IsField(f) && i < 32
    ensures Has(f.mask, i) <==> Covers(f, i)
  {
    HasShl(32, Pow2(f.width) - 1, f.shift, i);
    if f.shift <= i { HasOnes(f.width, i - f.shift); }
  }

  /** Two words with the same bits are equal. */
  lemma {:induction false} SameBits(n: nat, a: nat, b: nat)
    requires a < Pow2(n) && b < Pow2(n)
    requires forall i: nat :: i < n ==> (Has(a, i) <==> Has(b, i))
    ensures a == b
  {
    if n > 0 {
      assert Has(a, 0) <==> Has(b, 0);
      forall i: nat | i < n - 1 ensures Has(a / 2, i) <==> Has(b / 2, i) {
        assert Has(a, i + 1) <==> Has(b, i + 1);
      }
      SameBits(n - 1, a / 2, b / 2);
    }
  }

  lemma SetBits(v: nat, f: Field, x: nat, i: nat)
    requires IsField(f) && i < 32
    ensures Has(SetBf(v, f, x), i) <==> if Covers(f, i) then Has(x, i - f.shift) else Has(v, i)
  {
    hide Has, Shl, And, Or, Not;
    MaskBits(f, i);
    HasLogic(32, f.mask, 0, i);
    HasLogic(32, v, Not(32, f.mask), i);
    HasLogic(32, Shl(32, x, f.shift), f.mask, i);
    HasLogic(32, And(32, v, Not(32, f.mask)), And(32, Shl(32, x, f.shift), f.mask), i);
    HasShl(32, x, f.shift, i);
  }

  lemma GetBits(v: nat, f: Field, i: nat)
    requires IsField(f)
    ensures Has(GetBf(v, f), i) <==> i < f.width && Has(v, f.shift + i)
  {
    hide Has, Shl, And;
    var m := And(32, v, f.mask);
    HasShr(m, f.shift, i);
    if f.shift + i < 32 {
      MaskBits(f, f.shift + i);
      HasLogic(32, v, f.mask, f.shift + i);
    } else if Has(m, f.shift + i) {
      HasBound(32, m, f.shift + i);
    }
  }

  lemma GetBound(v: nat, f: Field)
    ensures GetBf(v, f) < Pow2(32)
  {
    ShrBound(32, And(32, v, f.mask), f.shift);
  }

  lemma ModBits(x: nat, w: nat, i: nat)
    ensures Has(x % Pow2(w), i) <==> i < w && Has(x, i)
  {
    if i < w {
      HasLow(w, x, i);
    } else if Has(x % Pow2(w), i) {
      HasBound(w, x % Pow2(w), i);
    }
  }

  lemma ModWord(x: nat, w: nat)
    requires w <= 32
    ensures x % Pow2(w) < Pow2(32)
  {
    if w < 32 { Pow2Mono(w, 32); }
  }

  /** A field reads back what was stored, cut to the field's width. */
  lemma ReadBack(v: nat, f: Field, x: nat)
    requires IsField(f)
    ensures GetBf(SetBf(v, f, x), f) == x % Pow2(f.width)
  {
    hide Has, Pow2, GetBf, SetBf;
    var a, b := GetBf(SetBf(v, f, x), f), x % Pow2(f.width);
    GetBound(SetBf(v, f, x), f);
    ModWord(x, f.width);
    forall i: nat | i < 32 ensures Has(a, i) <==> Has(b, i) {
      GetBits(SetBf(v, f, x), f, i);
      if i < f.width { SetBits(v, f, x, f.shift + i); }
      ModBits(x, f.width, i);
    }
    SameBits(32, a, b);
  }

  /** Storing one field leaves the others. */
  lemma OthersKept(v: nat, f: Field, x: nat, g: Field)
    requires IsField(f) && IsField(g) && Apart(f, g)
    ensures GetBf(SetBf(v, f, x), g) == GetBf(v, g)
  {
    hide Has, Pow2, GetBf, SetBf;
    var a, b := GetBf(SetBf(v, f, x), g), GetBf(v, g);
    GetBound(SetBf(v, f, x), g);
    GetBound(v, g);
    forall i: nat | i < 32 ensures Has(a, i) <==> Has(b, i) {
      GetBits(SetBf(v, f, x), g, i);
      GetBits(v, g, i);
      if i < g.width { SetBits(v, f, x, g.shift + i); }
    }
    SameBits(32, a, b);
  }

  /** Or of two parts that share no bits is their sum. */
  lemma {:induction false} OrIsSum(n: nat, a: nat, k: nat, t: nat)
    requires k <= n && t < Pow2(k) && a * Pow2(k) + t < Pow2(n)
    ensures Or(n, a * Pow2(k), t) == a * Pow2(k) + t
    decreases n
  {
    if k == 0 {
      OrZero(n, a);
    } else {
      assert a * Pow2(k) == 2 * (a * Pow2(k - 1));
      assert (a * Pow2(k)) / 2 == a * Pow2(k - 1);
      OrIsSum(n - 1, a, k - 1, t / 2);
    }
  }

  lemma {:induction false} OrZero(n: nat, a: nat)
    requires a < Pow2(n)
    ensures Or(n, a, 0) == a
  {
    if n > 0 { OrZero(n - 1, a / 2); }
  }
}
