/** Printing a number's digits, and reading them back with strtoull and strtoll. */
module Numerals {
  import opened BinMaps

  const UINT64_RANGE: int := 0x1_0000_0000_0000_0000
  const LONG_LONG_MAX: int := 0x7FFF_FFFF_FFFF_FFFF

  function DigitChar(d: nat, capital: bool): char
    requires d < 16
  {
    if d < 10 then '0' + d as char else if capital then 'A' + (d - 10) as char else 'a' + (d - 10) as char
  }

  function Quot(u: nat, radix: nat): (q: nat)
    requires 2 <= radix
    ensures (u > 0 ==> q < u) && (q == 0 <==> u < radix)
  {
    QuotLess(u, radix);
    u / radix
  }

  lemma QuotLess(u: nat, radix: nat)
    requires 2 <= radix
    ensures (u > 0 ==> u / radix < u) && (u / radix == 0 <==> u < radix)
  {
    var q := u / radix;
    assert u == radix * q + u % radix;
    if q > 0 { TimesAtLeast(radix, q); }
  }

  lemma TimesAtLeast(a: nat, b: nat)
    requires 2 <= a && 1 <= b
    ensures a * b >= 2 * b && a * b >= a
  {
  }

  function Rem(u: nat, radix: nat): (r: nat)
    requires 2 <= radix
    ensures r < radix
  {
    u % radix
  }

  /** Most significant digit first, without leading zeros. */
  function Digits(u: nat, radix: nat, capital: bool): (s: seq<char>)
    requires 2 <= radix <= 16
    ensures |s| > 0
  {
    if u < radix then [DigitChar(u, capital)]
      else Digits(Quot(u, radix), radix, capital) + [DigitChar(Rem(u, radix), capital)]
  }

  lemma Range64()
    ensures UINT64_RANGE == Pow2(64)
  {
    assert Pow2(8) == 256;
    assert Pow2(16) == 256 * Pow2(8);
    assert Pow2(24) == 256 * Pow2(16);
    assert Pow2(32) == 256 * Pow2(24);
    assert Pow2(40) == 256 * Pow2(32);
    assert Pow2(48) == 256 * Pow2(40);
    assert Pow2(56) == 256 * Pow2(48);
    assert Pow2(64) == 256 * Pow2(56);
  }

  lemma QuotFits(u: nat, radix: nat, pos: nat)
    requires u < Pow2(pos) && 2 <= radix && 0 < u
    ensures pos > 0 && Quot(u, radix) < Pow2(pos - 1)
  {
    var q := u / radix;
    assert radix * q <= u;
    assert 2 * q <= radix * q;
  }

  lemma RemSmall(u: nat, radix: nat)
    requires 2 <= radix && u < radix
    ensures Rem(u, radix) == u
  {
  }

  /** Nothing for zero, the digits otherwise. */
  function Rest(u: nat, radix: nat, capital: bool): seq<char>
    requires 2 <= radix <= 16
  {
    if u == 0 then [] else Digits(u, radix, capital)
  }

  lemma LastDigit(u: nat, radix: nat, capital: bool)
    requires 2 <= radix <= 16
    ensures Digits(u, radix, capital) == Rest(Quot(u, radix), radix, capital) + [DigitChar(Rem(u, radix), capital)]
  {
    if u < radix { RemSmall(u, radix); }
  }

  method PutDigit(buf: array<char>, pos: nat, c: char)
    requires pos < buf.Length
    modifies buf
    ensures buf[pos..] == [c] + old(buf[pos + 1..])
  {
    buf[pos] := c;
  }

  /** The do-while loop of printf_num, which fills a 65-character buffer from its end. */
  method FillDigits(buf: array<char>, u: nat, radix: nat, capital: bool) returns (pos: nat)
    requires buf.Length == 65 && 2 <= radix <= 16 && u < UINT64_RANGE
    modifies buf
    ensures pos < 64 && buf[pos + 1..] == Digits(u, radix, capital)
  {
    hide Pow2, Quot, Rem, DigitChar, Digits, Rest;
    Range64();
    pos := 64;
    var uval: nat := u;
    if u > 0 { QuotFits(u, radix, 64); } else { PowPositive(63); }
    LastDigit(u, radix, capital);
    PutDigit(buf, pos, DigitChar(Rem(uval, radix), capital));
    uval := Quot(uval, radix);
    pos := pos - 1;
    RestZero(radix, capital);
    while uval != 0
      invariant pos < 64 && uval < Pow2(pos)
      invariant Digits(u, radix, capital) == Rest(uval, radix, capital) + buf[pos + 1..]
    {
      QuotFits(uval, radix, pos);
      LastDigit(uval, radix, capital);
      RestPositive(uval, radix, capital);
      PutDigit(buf, pos, DigitChar(Rem(uval, radix), capital));
      uval := Quot(uval, radix);
      pos := pos - 1;
    }
  }

  lemma RestZero(radix: nat, capital: bool)
    requires 2 <= radix <= 16
    ensures Rest(0, radix, capital) == []
  {
  }

  lemma RestPositive(u: nat, radix: nat, capital: bool)
    requires 2 <= radix <= 16 && u > 0
    ensures Rest(u, radix, capital) == Digits(u, radix, capital)
  {
  }

  lemma PowPositive(n: nat)
    ensures 0 < Pow2(n)
  {
  }

  // ---- reading back ----

  /** The value of one character in a base, as strtoull takes it; -1 for a character that stops it. */
  function CharValue(c: char, base: nat): int {
    var maxnumdigit := if base >= 10 then '9' as int else base - 1;
    if '0' <= c && c as int <= maxnumdigit then c as int - '0' as int
    else if 'a' <= c && c as int < 'a' as int + base - 10 then c as int - 'a' as int + 10
    else if 'A' <= c && c as int < 'A' as int + base - 10 then c as int - 'A' as int + 10
    else -1
  }

  datatype Errno = Fine | Invalid | Range

  datatype Parsed = Parsed(value: int, errno: Errno, end: nat)

  /** strtoull from character i on: value so far, errno so far. */
  function Scan(str: seq<char>, i: nat, base: nat, value: nat, errno: Errno): Parsed
    requires i <= |str|
    decreases |str| - i
  {
    if i == |str| || str[i] == '\0' then Parsed(value, errno, i)
    else
      var scaled := value * base % UINT64_RANGE;
      var v := CharValue(str[i], base);
      if v < 0 then Parsed(scaled, errno, i)
      else
        var next := (scaled + v) % UINT64_RANGE;
        if next < value then Parsed(0, Range, i) else Scan(str, i + 1, base, next, Fine)
  }

  // ---- what the scan finds ----

  /** How many characters from i on are digits of the base. */
  function DigitRun(str: seq<char>, i: nat, base: nat): (n: nat)
    requires i <= |str|
    ensures n <= |str| - i && forall k {:trigger str[k]} :: i <= k < i + n ==> CharValue(str[k], base) >= 0
    ensures i + n < |str| ==> CharValue(str[i + n], base) < 0
    decreases |str| - i
  {
    if i < |str| && CharValue(str[i], base) >= 0 then 1 + DigitRun(str, i + 1, base) else 0
  }

  /** The number that the first n characters say. */
  function NumberIn(str: seq<char>, n: nat, base: nat): nat
    requires n <= |str| && forall k {:trigger str[k]} :: 0 <= k < n ==> CharValue(str[k], base) >= 0
  {
    if n == 0 then 0 else NumberIn(str, n - 1, base) * base + CharValue(str[n - 1], base)
  }

  predicate AtEnd(str: seq<char>, i: nat) {
    i >= |str| || str[i] == '\0'
  }

  /** What strtoull leaves of a number: a character that is no digit is seen only once the value has been
      multiplied by the base for it. */
  function LeftOver(str: seq<char>, i: nat, base: nat, number: nat): nat {
    (if AtEnd(str, i) then number else number * base) % UINT64_RANGE
  }

  /** A text without digits is invalid.  A number that fits is found; one that does not is a range error, or is
      cut to 64 bits without a word. */
  ghost predicate Reads(str: seq<char>, base: nat, r: Parsed) {
    var n := DigitRun(str, 0, base);
    var number := NumberIn(str, n, base);
    && (n == 0 ==> r == Parsed(0, Invalid, 0))
    && (n > 0 ==>
          r == Parsed(LeftOver(str, n, base, number), Fine, n)
          || (number >= UINT64_RANGE && r.value == 0 && r.errno == Range && r.end < n))
  }

  lemma NumberGrows(str: seq<char>, m: nat, n: nat, base: nat)
    requires m <= n <= |str| && 0 < base && forall k {:trigger str[k]} :: 0 <= k < n ==> CharValue(str[k], base) >= 0
    ensures NumberIn(str, m, base) <= NumberIn(str, n, base)
    decreases n
  {
    hide CharValue;
    if m < n {
      NumberGrows(str, m, n - 1, base);
      MulAtLeast(NumberIn(str, n - 1, base), base);
    }
  }

  lemma DigitBase(c: char, base: nat)
    requires CharValue(c, base) >= 0
    ensures base >= 10 && c != '\0'
  {
  }

  /** One digit more, on what is left of the digits before. */
  lemma CutStep(number: nat, base: nat, v: nat)
    ensures (number % UINT64_RANGE * base % UINT64_RANGE + v) % UINT64_RANGE == (number * base + v) % UINT64_RANGE
  {
    CutTimes(number, base);
    CutPlus(number % UINT64_RANGE * base, v);
    CutPlus(number * base, v);
  }

  lemma CutTimes(number: nat, base: nat)
    ensures number % UINT64_RANGE * base % UINT64_RANGE == number * base % UINT64_RANGE
  {
    var q, r := number / UINT64_RANGE, number % UINT64_RANGE;
    assert number * base == r * base + q * base * UINT64_RANGE by {
      assert number == q * UINT64_RANGE + r;
      Distribute(q, UINT64_RANGE, r, base);
    }
    AddMultiple(r * base, q * base);
  }

  lemma Distribute(q: nat, m: nat, r: nat, b: nat)
    ensures (q * m + r) * b == r * b + q * b * m
  {
  }

  lemma AddMultiple(x: nat, k: nat)
    ensures (x + k * UINT64_RANGE) % UINT64_RANGE == x % UINT64_RANGE
  {
  }

  lemma CutPlus(x: nat, v: nat)
    ensures (x % UINT64_RANGE + v) % UINT64_RANGE == (x + v) % UINT64_RANGE
  {
  }

  /** From digit i on, with the value cut so far. */
  lemma {:induction false} ScanReads(str: seq<char>, i: nat, base: nat, errno: Errno)
    requires i <= DigitRun(str, 0, base) && (i > 0 ==> errno == Fine) && (i == 0 ==> errno == Invalid)
    ensures Reads(str, base, Scan(str, i, base, NumberIn(str, i, base) % UINT64_RANGE, errno))
    decreases |str| - i
  {
    hide CharValue, DigitRun;
    var n := DigitRun(str, 0, base);
    var value := NumberIn(str, i, base) % UINT64_RANGE;
    if i < n {
      var v := CharValue(str[i], base);
      DigitBase(str[i], base);
      CutStep(NumberIn(str, i, base), base, v);
      var next := (value * base % UINT64_RANGE + v) % UINT64_RANGE;
      assert next == NumberIn(str, i + 1, base) % UINT64_RANGE;
      if next < value {
        NoFalseAlarm(str, i, n, base);
      } else {
        ScanReads(str, i + 1, base, Fine);
      }
    } else {
      CutTimes(NumberIn(str, i, base), base);
    }
  }

  /** A value falls only when the number no longer fits. */
  lemma NoFalseAlarm(str: seq<char>, i: nat, n: nat, base: nat)
    requires i < n <= |str| && 0 < base && forall k {:trigger str[k]} :: 0 <= k < n ==> CharValue(str[k], base) >= 0
    requires NumberIn(str, i + 1, base) % UINT64_RANGE < NumberIn(str, i, base) % UINT64_RANGE
    ensures NumberIn(str, n, base) >= UINT64_RANGE
  {
    hide CharValue;
    NumberGrows(str, i, i + 1, base);
    NumberGrows(str, i + 1, n, base);
  }

  /** strtoull. */
  method StrToULL(str: seq<char>, base: nat) returns (r: Parsed)
    ensures r == Scan(str, 0, base, 0, Invalid) && Reads(str, base, r)
  {
    var ret: nat, errno, i := 0, Invalid, 0;
    ScanReads(str, 0, base, Invalid);
    while i < |str| && str[i] != '\0'
      invariant i <= |str| && Scan(str, i, base, ret, errno) == Scan(str, 0, base, 0, Invalid)
    {
      var prev := ret;
      var v := CharValue(str[i], base);
      ret := ret * base % UINT64_RANGE;
      if v < 0 { return Parsed(ret, errno, i); }
      ret := (ret + v) % UINT64_RANGE;
      if ret < prev { return Parsed(0, Range, i); }
      errno := Fine;
      i := i + 1;
    }
    return Parsed(ret, errno, i);
  }

  /** A number is read as it stands if and only if there is one, it fits 64 bits, and it ends the text or is zero. */
  lemma ReadsRight(str: seq<char>, base: nat)
    requires base == 10 || base == 16
    ensures var n := DigitRun(str, 0, base); var number := NumberIn(str, n, base);
      Scan(str, 0, base, 0, Invalid) == Parsed(number, Fine, n)
      <==> 0 < n && number < UINT64_RANGE && (AtEnd(str, n) || number == 0)
  {
    hide CharValue, DigitRun, Scan;
    ScanReads(str, 0, base, Invalid);
    var n := DigitRun(str, 0, base);
    TimesMoves(NumberIn(str, n, base), base);
  }

  /** With digit k the number, cut to 64 bits, gets smaller. */
  predicate Falls(str: seq<char>, k: nat, base: nat)
    requires k < |str| && forall j {:trigger str[j]} :: 0 <= j <= k ==> CharValue(str[j], base) >= 0
  {
    NumberIn(str, k + 1, base) % UINT64_RANGE < NumberIn(str, k, base) % UINT64_RANGE
  }

  /** From digit i on: a range error, at the first digit that makes the cut number smaller, or no such digit. */
  lemma {:induction false} RangeFrom(str: seq<char>, i: nat, base: nat, errno: Errno)
    requires i <= DigitRun(str, 0, base) && errno != Range
    ensures var n := DigitRun(str, 0, base); var r := Scan(str, i, base, NumberIn(str, i, base) % UINT64_RANGE, errno);
      && (r.errno == Range <==> exists k: nat :: i <= k < n && Falls(str, k, base))
      && (r.errno == Range ==>
            i <= r.end < n && Falls(str, r.end, base) && forall k: nat :: i <= k < r.end ==> !Falls(str, k, base))
    decreases |str| - i
  {
    hide CharValue, DigitRun;
    var n := DigitRun(str, 0, base);
    var value := NumberIn(str, i, base) % UINT64_RANGE;
    if i < n {
      var v := CharValue(str[i], base);
      DigitBase(str[i], base);
      CutStep(NumberIn(str, i, base), base, v);
      var next := (value * base % UINT64_RANGE + v) % UINT64_RANGE;
      assert next == NumberIn(str, i + 1, base) % UINT64_RANGE;
      assert next < value <==> Falls(str, i, base);
      if next >= value { RangeFrom(str, i + 1, base, Fine); }
    }
  }

  /** The overflow test: a range error is reported exactly when some digit makes the number, cut to 64 bits, smaller
      than it was, and at the first such digit. */
  lemma RangeWhen(str: seq<char>, base: nat)
    ensures var n := DigitRun(str, 0, base); var r := Scan(str, 0, base, 0, Invalid);
      && (r.errno == Range <==> exists k: nat :: k < n && Falls(str, k, base))
      && (r.errno == Range ==>
            r.end < n && Falls(str, r.end, base) && forall k: nat :: k < r.end ==> !Falls(str, k, base))
  {
    hide CharValue, DigitRun, Scan, Falls;
    RangeFrom(str, 0, base, Invalid);
  }

  lemma TimesMoves(number: nat, base: nat)
    requires base == 10 || base == 16
    ensures number < UINT64_RANGE && number * base % UINT64_RANGE == number ==> number == 0
  {
  }

  /** What a following character does: 12 is read as 120. */
  lemma TrailingTimesBase()
    ensures Scan("12x", 0, 10, 0, Invalid) == Parsed(120, Fine, 2)
  {
    ScanStep("12x", 0, 10, 0, Invalid, 1, 1);
    ScanStep("12x", 1, 10, 1, Fine, 2, 12);
    assert CharValue('x', 10) < 0;
  }

  /** Bases below ten have no digits. */
  lemma LowBases(str: seq<char>, base: nat)
    requires base < 10
    ensures Scan(str, 0, base, 0, Invalid) == Parsed(0, Invalid, 0)
  {
  }

  /** Two's complement. */
  function ToSigned(u: int): int {
    var x := u % UINT64_RANGE;
    if x > LONG_LONG_MAX then x - UINT64_RANGE else x
  }

  /** strtoll: the value as a long long. */
  function StrToLL(str: seq<char>, base: nat): Parsed {
    var neg := |str| > 0 && str[0] == '-';
    var r := Scan(if neg then str[1..] else str, 0, base, 0, Invalid);
    var end := if neg then r.end + 1 else r.end;
    if !r.errno.Fine? then Parsed(0, r.errno, end)
    else if neg then Parsed(ToSigned(-r.value), if r.value > LONG_LONG_MAX + 1 then Range else Fine, end)
    else Parsed(ToSigned(r.value), if r.value > LONG_LONG_MAX then Range else Fine, end)
  }

  /** Digit k of a number of n digits makes it smaller, once cut to 64 bits, and none before it does. */
  ghost predicate FirstFall(str: seq<char>, n: nat, base: nat, k: int)
    requires n <= |str| && forall j {:trigger str[j]} :: 0 <= j < n ==> CharValue(str[j], base) >= 0
  {
    0 <= k < n && Falls(str, k, base) && forall j: nat :: j < k ==> !Falls(str, j, base)
  }

  ghost predicate NeverFalls(str: seq<char>, n: nat, base: nat)
    requires n <= |str| && forall j {:trigger str[j]} :: 0 <= j < n ==> CharValue(str[j], base) >= 0
  {
    forall k: nat :: k < n ==> !Falls(str, k, base)
  }

  /** All that strtoull may say. */
  lemma UnsignedReads(str: seq<char>, base: nat)
    ensures var n := DigitRun(str, 0, base); var r := Scan(str, 0, base, 0, Invalid);
      if n == 0 then r == Parsed(0, Invalid, 0)
      else if NeverFalls(str, n, base) then r == Parsed(LeftOver(str, n, base, NumberIn(str, n, base)), Fine, n)
      else r.value == 0 && r.errno == Range && FirstFall(str, n, base, r.end)
  {
    hide CharValue, DigitRun, Scan, Falls, LeftOver;
    ScanReads(str, 0, base, Invalid);
    RangeWhen(str, base);
  }

  /** What strtoll says of the text t behind an optional minus sign.  Without a digit it is invalid.  There is no error
      exactly when no digit makes the number, cut to 64 bits, smaller, and what strtoull leaves of it fits a long long;
      the value is that with its sign.  Otherwise there is a range error: at the first digit that does, or, behind all
      digits, with the value wrapped around. */
  ghost predicate SaysSigned(t: seq<char>, base: nat, neg: bool, off: nat, r: Parsed) {
    var n := DigitRun(t, 0, base);
    var v: int := LeftOver(t, n, base, NumberIn(t, n, base));
    var fits := v <= if neg then LONG_LONG_MAX + 1 else LONG_LONG_MAX;
    && (r.errno == Invalid <==> n == 0) && (n == 0 ==> r.value == 0 && r.end == off)
    && (r.errno == Fine <==> n > 0 && NeverFalls(t, n, base) && fits)
    && (r.errno == Fine ==> r.value == (if neg then -v else v) && r.end == off + n)
    && (r.errno == Range && !NeverFalls(t, n, base) ==> r.value == 0 && FirstFall(t, n, base, r.end - off))
    && (r.errno == Range && NeverFalls(t, n, base) ==>
          r.value == (if neg then UINT64_RANGE - v else v - UINT64_RANGE) && r.end == off + n)
  }

  lemma SignedReads(str: seq<char>, base: nat)
    ensures var neg := |str| > 0 && str[0] == '-';
      SaysSigned(if neg then str[1..] else str, base, neg, if neg then 1 else 0, StrToLL(str, base))
  {
    hide CharValue, DigitRun, Scan, NeverFalls, FirstFall, NumberIn, ToSigned, LeftOver;
    var neg := |str| > 0 && str[0] == '-';
    var t := if neg then str[1..] else str;
    UnsignedReads(t, base);
    var n := DigitRun(t, 0, base);
    LeftOverFits(t, n, base, NumberIn(t, n, base));
    WrapAround(LeftOver(t, n, base, NumberIn(t, n, base)));
  }

  lemma LeftOverFits(str: seq<char>, i: nat, base: nat, number: nat)
    ensures LeftOver(str, i, base, number) < UINT64_RANGE
  {
  }

  lemma WrapAround(v: int)
    requires 0 <= v < UINT64_RANGE
    ensures ToSigned(v) == if v <= LONG_LONG_MAX then v else v - UINT64_RANGE
    ensures ToSigned(-v) == if v <= LONG_LONG_MAX + 1 then -v else UINT64_RANGE - v
  {
    if v > 0 { assert (-v) % UINT64_RANGE == UINT64_RANGE - v; }
  }

  const LOWER := "0123456789abcdefghijklmnopqrstuvwxyz"
  const UPPER := "0123456789ABCDEFGHIJKLMNOPQRSTUVWXYZ"

  /** The characters that are digits of a base, and what they are worth: the first so many of the usual ones, in
      either case. */
  lemma DigitsAre(c: char, base: nat, v: int)
    requires 10 <= base <= 36
    ensures v >= 0 && CharValue(c, base) == v <==> 0 <= v < base && (c == LOWER[v] || c == UPPER[v])
  {
    if 0 <= v < base { DigitCharsAre(v); }
  }

  lemma DigitCharsAre(v: nat)
    requires v < 36
    ensures LOWER[v] == if v < 10 then '0' + v as char else 'a' + (v - 10) as char
    ensures UPPER[v] == if v < 10 then '0' + v as char else 'A' + (v - 10) as char
  {
  }

  // ---- print, then parse ----

  lemma DigitValue(d: nat, radix: nat, capital: bool)
    requires d < radix && (radix == 10 || radix == 16)
    ensures CharValue(DigitChar(d, capital), radix) == d && DigitChar(d, capital) != '\0'
      && DigitChar(d, capital) != '-'
  {
  }

  lemma QuotRem(u: nat, radix: nat)
    requires 2 <= radix
    ensures u == Quot(u, radix) * radix + Rem(u, radix)
  {
  }

  /** Scanning the digits of u from the start leaves the value u, with whatever follows still to be read. */
  lemma {:induction false} ScanDigits(str: seq<char>, u: nat, radix: nat, capital: bool)
    requires (radix == 10 || radix == 16) && u < UINT64_RANGE && Digits(u, radix, capital) <= str
    ensures Scan(str, 0, radix, 0, Invalid) == Scan(str, |Digits(u, radix, capital)|, radix, u, Fine)
    decreases u
  {
    hide Quot, Rem, CharValue, DigitChar;
    var digits := Digits(u, radix, capital);
    if u < radix {
      DigitValue(u, radix, capital);
      ScanStep(str, 0, radix, 0, Invalid, u, u);
    } else {
      var q, d := Quot(u, radix), Rem(u, radix);
      QuotRem(u, radix);
      DigitValue(d, radix, capital);
      var k := |Digits(q, radix, capital)|;
      assert digits[..k] == Digits(q, radix, capital) && str[..k] == digits[..k]
        && str[k] == digits[k] == DigitChar(d, capital);
      ScanDigits(str, q, radix, capital);
      ScanStep(str, k, radix, q, Fine, d, u);
    }
  }

  lemma ScanStep(str: seq<char>, i: nat, base: nat, value: nat, errno: Errno, v: nat, next: nat)
    requires i < |str| && str[i] != '\0' && CharValue(str[i], base) == v && next == value * base + v < UINT64_RANGE
      && base > 0
    ensures Scan(str, i, base, value, errno) == Scan(str, i + 1, base, next, Fine)
  {
    hide CharValue;
    MulAtLeast(value, base);
    var scaled := value * base;
    Small(scaled);
    Small(next);
    assert scaled % UINT64_RANGE == scaled;
  }

  lemma MulAtLeast(value: nat, base: nat)
    requires base > 0
    ensures value * base >= value
  {
  }

  lemma Small(x: nat)
    requires x < UINT64_RANGE
    ensures x % UINT64_RANGE == x
  {
  }

  /** strtoull reads back the digits of every 64-bit number, in base 10 and in base 16 of either case. */
  lemma PrintParse(u: nat, radix: nat, capital: bool)
    requires (radix == 10 || radix == 16) && u < UINT64_RANGE
    ensures var s := Digits(u, radix, capital); Scan(s + ['\0'], 0, radix, 0, Invalid) == Parsed(u, Fine, |s|)
  {
    ScanDigits(Digits(u, radix, capital) + ['\0'], u, radix, capital);
  }

  /** A number too big for 64 bits that no range error shows: thirty million million million is read as what is
      left of it. */
  lemma OverflowMissed()
    ensures var s := Digits(3_000_000_000_000_000_000, 10, false) + ['0'];
      Scan(s, 0, 10, 0, Invalid) == Parsed(30_000_000_000_000_000_000 - UINT64_RANGE, Fine, |s|)
  {
    var u := 3_000_000_000_000_000_000;
    var digits := Digits(u, 10, false);
    ScanDigits(digits + ['0'], u, 10, false);
    hide Digits;
    assert (digits + ['0'])[|digits|] == '0';
    assert CharValue('0', 10) == 0;
  }

  function Magnitude(v: int): nat { if v < 0 then -v else v }

  /** What printf_num prints of a long long with %lld. */
  function Signed(v: int): seq<char> {
    (if v < 0 then ['-'] else []) + Digits(Magnitude(v), 10, false)
  }

  lemma NoSign(u: nat, radix: nat, capital: bool)
    requires radix == 10 || radix == 16
    ensures Digits(u, radix, capital)[0] != '-'
    decreases u
  {
    hide CharValue;
    if u < radix { DigitValue(u, radix, capital); } else { NoSign(Quot(u, radix), radix, capital); }
  }

  /** strtoll reads back every long long, the smallest included. */
  lemma PrintParseSigned(v: int)
    requires -LONG_LONG_MAX - 1 <= v <= LONG_LONG_MAX
    ensures StrToLL(Signed(v) + ['\0'], 10) == Parsed(v, Fine, |Signed(v)|)
  {
    var digits := Digits(Magnitude(v), 10, false);
    var str := Signed(v) + ['\0'];
    PrintParse(Magnitude(v), 10, false);
    NoSign(Magnitude(v), 10, false);
    assert (if v < 0 then str[1..] else str) == digits + ['\0'];
    assert str[0] == '-' <==> v < 0;
    hide Scan, Digits;
    WrapSigned(v);
  }

  lemma WrapSigned(v: int)
    requires -LONG_LONG_MAX - 1 <= v <= LONG_LONG_MAX
    ensures ToSigned(v) == v
  {
  }
}
