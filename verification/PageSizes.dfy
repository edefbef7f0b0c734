/** The largest supported TLB page for a range of 4K pages.  A page of size t has 2^(t-2) of them (tsize_to_pages). */
module PageSizes {
  import opened ChunkLayout
  import opened BinMaps
  import opened BinIndex

  const TLB_TSIZE_4K := 2
  const TLB_TSIZE_1T := 30

  /** count_lsb_zeroes of a number that is not zero. */
  function TrailingZeros(x: nat): (k: nat)
    requires x > 0
  {
    if x % 2 == 1 then 0 else 1 + TrailingZeros(x / 2)
  }

  /** count_msb_zeroes_32 of a word that is not zero. */
  function LeadingZeros32(x: nat): int
    requires x > 0
  {
    31 - Log2(x)
  }

  /** 2^k divides x exactly up to k = TrailingZeros(x). */
  lemma {:induction false} ZerosDivide(x: nat, k: nat)
    requires x > 0
    ensures x % Pow2(k) == 0 <==> k <= TrailingZeros(x)
  {
    if k > 0 {
      ModStep(k, x);
      if x % 2 == 0 { ZerosDivide(x / 2, k - 1); }
    }
  }

  /** ilog2 is the largest power of two at most x. */
  lemma LogBounds(x: nat, k: nat)
    requires x > 0
    ensures Pow2(k) <= x <==> k <= Log2(x)
  {
    Log2Means(x);
    if k < Log2(x) { Pow2Mono(k, Log2(x)); }
    if Log2(x) + 1 < k { Pow2Mono(Log2(x) + 1, k); }
  }

  // ---- the header's functions ----

  function Clamp(tsize: nat): nat { if tsize > 31 then 31 else tsize }

  function PagesToTsizeMsb(epn: nat): nat {
    Clamp(if epn != 0 then Log2(epn) + 2 else 0)
  }

  function PagesToTsizeLsb(epn: nat): nat {
    Clamp(if epn != 0 then TrailingZeros(epn) + 2 else 0)
  }

  /** The word whose leading zeros max_valid_tsize counts: the valid sizes up to tsize, moved to the top. */
  function ValidUpTo(valid: nat, tsize: nat): nat
    requires tsize <= 31
  {
    Shl(32, valid, 31 - tsize)
  }

  function MaxValidTsize(valid: nat, tsize: nat): int
    requires TLB_TSIZE_4K <= tsize <= 31 && Has(valid, TLB_TSIZE_4K)
  {
    ValidNotZero(valid, tsize);
    tsize - LeadingZeros32(ValidUpTo(valid, tsize))
  }

  function NaturalAlignment(valid: nat, epn: nat): int
    requires Has(valid, TLB_TSIZE_4K)
  {
    if epn != 0 then MaxValidTsize(valid, PagesToTsizeLsb(epn)) else MaxValidTsize(valid, TLB_TSIZE_1T)
  }

  function MaxPageSize(valid: nat, start: nat, num: nat): int
    requires Has(valid, TLB_TSIZE_4K) && num >= 1
  {
    var a, b := NaturalAlignment(valid, start), MaxValidTsize(valid, PagesToTsizeMsb(num));
    if a < b then a else b
  }

  // ---- what they compute ----

  lemma ValidNotZero(valid: nat, tsize: nat)
    requires TLB_TSIZE_4K <= tsize <= 31 && Has(valid, TLB_TSIZE_4K)
    ensures ValidUpTo(valid, tsize) > 0
  {
    HasShl(32, valid, 31 - tsize, 31 - tsize + 2);
    hide Has;
    ZeroBits(31 - tsize + 2);
  }

  /** The top bit of a word. */
  lemma {:induction false} TopBitIs(x: nat)
    requires x > 0
    ensures Has(x, Log2(x)) && forall j: nat :: j > Log2(x) ==> !Has(x, j)
  {
    if x >= 2 {
      TopBitIs(x / 2);
      forall j: nat | j > Log2(x) ensures !Has(x, j) { }
    } else {
      forall j: nat | j > 0 ensures !Has(x, j) { ZeroBits(j - 1); }
    }
  }

  /** max_valid_tsize is the largest valid size at most tsize. */
  lemma MaxValidMeans(valid: nat, tsize: nat)
    requires TLB_TSIZE_4K <= tsize <= 31 && Has(valid, TLB_TSIZE_4K)
    ensures var t := MaxValidTsize(valid, tsize);
      TLB_TSIZE_4K <= t <= tsize && Has(valid, t) && forall u: nat :: t < u <= tsize ==> !Has(valid, u)
  {
    ValidNotZero(valid, tsize);
    var w := ValidUpTo(valid, tsize);
    var s := 31 - tsize;
    TopBitIs(w);
    ShlBound(valid, s);
    LogBounds(w, 32);
    HasShl(32, valid, s, Log2(w));
    HasShl(32, valid, s, s + 2);
    hide Has, Shl, Log2;
    var t := MaxValidTsize(valid, tsize);
    assert t == Log2(w) - s;
    forall u: nat | t < u <= tsize ensures !Has(valid, u) { HasShl(32, valid, s, u + s); }
  }

  lemma ShlBound(a: nat, i: nat)
    ensures Shl(32, a, i) < Pow2(32)
  {
  }

  /** max_page_size is the largest supported size whose pages divide start and do not exceed num; for a start of
      zero none above 1T counts. */
  lemma MaxPageSizeMeans(valid: nat, start: nat, num: nat)
    requires Has(valid, TLB_TSIZE_4K) && num >= 1
    ensures var t := MaxPageSize(valid, start, num);
      TLB_TSIZE_4K <= t <= 31 && Has(valid, t) && start % Pow2(t - 2) == 0 && Pow2(t - 2) <= num
    ensures var t := MaxPageSize(valid, start, num);
      forall u: nat ::
        t < u <= (if start == 0 then TLB_TSIZE_1T else 31) && Has(valid, u) ==>
        start % Pow2(u - 2) != 0 || num < Pow2(u - 2)
  {
    var a, b := if start != 0 then PagesToTsizeLsb(start) else TLB_TSIZE_1T, PagesToTsizeMsb(num);
    MaxValidMeans(valid, a);
    MaxValidMeans(valid, b);
    var t := MaxPageSize(valid, start, num);
    hide Has, MaxValidTsize, Pow2, Log2, TrailingZeros;
    LogBounds(num, t - 2);
    if start != 0 { ZerosDivide(start, t - 2); } else { ZeroMod(t - 2); }
    forall u: nat | t < u <= (if start == 0 then TLB_TSIZE_1T else 31) && Has(valid, u)
      ensures start % Pow2(u - 2) != 0 || num < Pow2(u - 2)
    {
      LogBounds(num, u - 2);
      if start != 0 { ZerosDivide(start, u - 2); }
    }
  }

  lemma ZeroMod(k: nat)
    ensures 0 % Pow2(k) == 0
  {
  }

  // ---- mapping a range ----

  /** The pages that map [start, start + num) when each is as large as can be. */
  function Tiling(valid: nat, start: nat, num: nat): (tiles: seq<(nat, nat)>)
    requires Has(valid, TLB_TSIZE_4K)
    decreases num
  {
    if num == 0 then []
    else
      MaxPageSizeMeans(valid, start, num);
      PowAtLeast(MaxPageSize(valid, start, num) - 2);
      var t := MaxPageSize(valid, start, num);
      [(start, t)] + Tiling(valid, start + Pow2(t - 2), num - Pow2(t - 2))
  }

  lemma PowAtLeast(k: nat)
    ensures Pow2(k) >= 1
  {
  }

  /** tiles cover [start, start + num) without gap or overlap, each a valid size naturally aligned. */
  ghost predicate Tiles(tiles: seq<(nat, nat)>, valid: nat, start: nat, num: nat)
    decreases |tiles|
  {
    if tiles == [] then num == 0
    else
      var t := tiles[0].1;
      tiles[0].0 == start && 2 <= t <= 31 && Has(valid, t) && start % Pow2(t - 2) == 0 && Pow2(t - 2) <= num
      && Tiles(tiles[1..], valid, start + Pow2(t - 2), num - Pow2(t - 2))
  }

  lemma {:induction false} TilingTiles(valid: nat, start: nat, num: nat)
    requires Has(valid, TLB_TSIZE_4K)
    ensures Tiles(Tiling(valid, start, num), valid, start, num)
    decreases num
  {
    hide Has, Pow2, MaxPageSize;
    if num > 0 {
      MaxPageSizeMeans(valid, start, num);
      var t := MaxPageSize(valid, start, num);
      PowAtLeast(t - 2);
      var next, left := start + Pow2(t - 2), num - Pow2(t - 2);
      TilingTiles(valid, next, left);
      FirstTile(Tiling(valid, next, left), valid, start, num, t);
    }
  }

  lemma FirstTile(rest: seq<(nat, nat)>, valid: nat, start: nat, num: nat, t: nat)
    requires 2 <= t <= 31 && Has(valid, t) && start % Pow2(t - 2) == 0 && Pow2(t - 2) <= num
    requires Tiles(rest, valid, start + Pow2(t - 2), num - Pow2(t - 2))
    ensures Tiles([(start, t)] + rest, valid, start, num)
  {
    hide Has, Pow2;
    assert ([(start, t)] + rest)[1..] == rest;
  }
}
