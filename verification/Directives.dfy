/** What a format prints, told conversion by conversion and apart from the way vsnprintf goes through it. */
module Directives {
  import opened ChunkLayout
  import opened BinMaps
  import opened BinIndex
  import opened Numerals
  import opened Formatter

  // ---- conversions ----

  /** A width or a precision. */
  datatype Amount = Absent | Written(digits: seq<char>) | Star

  datatype Conversion = Conversion(flags: seq<char>, width: Amount, precision: Amount, length: seq<char>, letter: char)

  function AmountText(a: Amount): seq<char> {
    match a
    case Absent => []
    case Written(digits) => digits
    case Star => "*"
  }

  function PrecisionText(a: Amount): seq<char> { if a.Absent? then [] else ['.'] + AmountText(a) }

  function TextOf(c: Conversion): seq<char> {
    ['%'] + c.flags + AmountText(c.width) + PrecisionText(c.precision) + c.length + [c.letter]
  }

  predicate IsDecimal(text: seq<char>) { forall i {:trigger text[i]} :: 0 <= i < |text| ==> '0' <= text[i] <= '9' }

  /** A character that ends a conversion: none that could be part of one. */
  predicate IsLetter(ch: char) {
    !('0' <= ch <= '9') && ch !in {'#', '-', ' ', '+', '\'', 'l', 'h', 'j', 't', 'z', '.', '*'}
  }

  /** A conversion as section 7.21.6.1 of ISO/IEC 9899:2011 orders it. */
  predicate WellFormed(c: Conversion) {
    && (forall i {:trigger c.flags[i]} :: 0 <= i < |c.flags| ==> c.flags[i] in {'#', '0', '-', ' ', '+', '\''})
    && (c.width.Written? ==> IsDecimal(c.width.digits) && c.width.digits != [] && c.width.digits[0] != '0')
    && (c.precision.Written? ==> IsDecimal(c.precision.digits))
    && (forall i {:trigger c.length[i]} :: 0 <= i < |c.length| ==> c.length[i] in {'l', 'h', 'j', 't', 'z'})
    && IsLetter(c.letter)
  }

  // ---- numerals ----

  function DigitWorth(c: char): nat {
    if '0' <= c <= '9' then c as int - '0' as int
    else if 'a' <= c <= 'f' then c as int - 'a' as int + 10
    else if 'A' <= c <= 'F' then c as int - 'A' as int + 10
    else 0
  }

  /** The number that digits say. */
  function Worth(text: seq<char>, radix: nat): nat {
    if text == [] then 0 else Worth(text[..|text| - 1], radix) * radix + DigitWorth(text[|text| - 1])
  }

  /** A digit of the radix: letters come in one case. */
  predicate IsDigitOf(c: char, radix: nat, capital: bool) {
    DigitWorth(c) < radix && ('0' <= c <= '9' || (if capital then 'A' <= c <= 'F' else 'a' <= c <= 'f'))
  }

  /** The text is the number n, without leading zeros. */
  predicate IsNumeral(text: seq<char>, n: nat, radix: nat, capital: bool) {
    && text != [] && Worth(text, radix) == n && (|text| > 1 ==> text[0] != '0')
    && forall i {:trigger text[i]} :: 0 <= i < |text| ==> IsDigitOf(text[i], radix, capital)
  }

  // ---- arguments ----

  /** Argument k; zero or "(null)" stands for one that is missing or of another kind. */
  function IntAt(args: seq<Arg>, k: nat): int { if k < |args| && args[k].Int? then args[k].v else 0 }

  function StrAt(args: seq<Arg>, k: nat): seq<char> { if k < |args| && args[k].Str? then args[k].s else "(null)" }

  function Behind(args: seq<Arg>, k: nat): seq<Arg> { if k <= |args| then args[k..] else [] }

  /** Where the argument for the precision's star and that for the conversion itself are. */
  function PrecisionAt(c: Conversion): nat { if c.width.Star? then 1 else 0 }

  function ValueAt(c: Conversion): nat { PrecisionAt(c) + if c.precision.Star? then 1 else 0 }

  function Abs(v: int): nat { if v < 0 then -v else v }

  function WidthOf(c: Conversion, args: seq<Arg>): nat {
    match c.width
    case Absent => 0
    case Written(digits) => Worth(digits, 10)
    case Star => Abs(IntAt(args, 0))
  }

  predicate IsLeft(c: Conversion, args: seq<Arg>) { '-' in c.flags || (c.width.Star? && IntAt(args, 0) < 0) }

  function PrecisionOf(c: Conversion, args: seq<Arg>): nat {
    match c.precision
    case Absent => 0
    case Written(digits) => Worth(digits, 10)
    case Star => if IntAt(args, PrecisionAt(c)) < 0 then 0 else IntAt(args, PrecisionAt(c))
  }

  // ---- what a conversion prints ----

  predicate Twice(text: seq<char>, c: char) { multiset(text)[c] >= 2 }

  /** The width in bits of the type that the length characters name. */
  function BitsOf(length: seq<char>): nat {
    if 'j' in length || Twice(length, 'l') then 64
    else if 'z' in length || 't' in length || 'l' in length then 8 * W
    else if Twice(length, 'h') then 8
    else if 'h' in length then 16
    else 32
  }

  /** x is what an argument v is as an integer of that many bits. */
  predicate IsSignedCut(x: int, v: int, bits: nat)
    requires bits > 0
  {
    0 <= x + Pow2(bits - 1) < Pow2(bits) && (v - x) % Pow2(bits) == 0
  }

  predicate IsUnsignedCut(x: int, v: int, bits: nat) { 0 <= x < Pow2(bits) && (v - x) % Pow2(bits) == 0 }

  /** A ptrdiff_t comes with a sign whatever the conversion, and is then taken for 64 bits without one. */
  predicate IsPtrdiff(length: seq<char>) {
    't' in length && 'z' !in length && 'j' !in length && !Twice(length, 'l')
  }

  /** x is the number that a conversion shows of argument v. */
  ghost predicate IsValue(c: Conversion, x: int, v: int) {
    if c.letter in {'d', 'i'} then IsSignedCut(x, v, BitsOf(c.length))
    else if c.letter == 'p' then IsUnsignedCut(x, v, 8 * W)
    else if IsPtrdiff(c.length) then exists y :: IsSignedCut(y, v, 8 * W) && IsUnsignedCut(x, y, 64)
    else IsUnsignedCut(x, v, BitsOf(c.length))
  }

  function RadixIn(c: Conversion): (radix: nat)
    ensures 2 <= radix <= 16
  {
    if c.letter == 'o' then 8 else if c.letter in {'x', 'X', 'p'} then 16 else 10
  }

  function SignIn(c: Conversion, x: int): seq<char> {
    if c.letter !in {'d', 'i'} then ""
    else if x < 0 then "-" else if '+' in c.flags then "+" else if ' ' in c.flags then " " else ""
  }

  function PrefixIn(c: Conversion, x: int): seq<char> {
    if RadixIn(c) == 16 && '#' in c.flags && x != 0 then "0x" else ""
  }

  /** The digits of x; none for a zero of precision zero. */
  ghost predicate IsDigits(digits: seq<char>, c: Conversion, args: seq<Arg>, x: int) {
    if x == 0 && !c.precision.Absent? && PrecisionOf(c, args) == 0 then digits == []
    else IsNumeral(digits, Abs(x), RadixIn(c), c.letter == 'X')
  }

  /** How many zeros come before len digits: enough for the precision, and one at least for an octal number's
      alternative form. */
  function ZerosIn(c: Conversion, args: seq<Arg>, x: int, len: nat): nat {
    if len < PrecisionOf(c, args) then PrecisionOf(c, args) - len
    else if RadixIn(c) == 8 && '#' in c.flags && x != 0 then 1 else 0
  }

  /** front and body spread to the width: blanks behind them when left justified, else blanks or zeros in between. */
  function Spread(front: seq<char>, body: seq<char>, width: nat, left: bool, ch: char): (text: seq<char>)
    ensures |text| == if |front| + |body| < width then width else |front| + |body|
  {
    var pad := width - |front| - |body|;
    if left then front + body + Repeat(' ', pad) else front + Repeat(ch, pad) + body
  }

  ghost predicate ShowsNumber(text: seq<char>, c: Conversion, args: seq<Arg>, x: int) {
    exists digits: seq<char> :: IsDigits(digits, c, args, x)
      && text == Spread(SignIn(c, x) + PrefixIn(c, x), Repeat('0', ZerosIn(c, args, x, |digits|)) + digits,
                        WidthOf(c, args), IsLeft(c, args), if '0' in c.flags then '0' else ' ')
  }

  function CutTo(c: Conversion, args: seq<Arg>): seq<char> {
    var s := StrAt(args, ValueAt(c));
    if !c.precision.Absent? && PrecisionOf(c, args) < |s| then s[..PrecisionOf(c, args)] else s
  }

  /** A letter that names no conversion prints itself; so it is with %. */
  predicate IsPlain(ch: char) { ch !in {'d', 'i', 'u', 'o', 'x', 'X', 'p', 'c', 's', 'n'} }

  /** What conversion c prints of args; a character that does not fit is not looked at. */
  ghost predicate Says(c: Conversion, args: seq<Arg>, fits: bool, text: seq<char>) {
    if IsPlain(c.letter) then text == [c.letter]
    else if c.letter == 'n' then text == ""
    else if c.letter == 'c' then
      |text| == 1 && (fits ==> text[0] as int < 256 && (IntAt(args, ValueAt(c)) - text[0] as int) % 256 == 0)
    else if c.letter == 's' then text == Spread("", CutTo(c, args), WidthOf(c, args), IsLeft(c, args), ' ')
    else exists x :: IsValue(c, x, IntAt(args, ValueAt(c))) && ShowsNumber(text, c, args, x)
  }

  /** How many arguments it takes. */
  function Takes(c: Conversion, fits: bool): nat {
    ValueAt(c) + if IsPlain(c.letter) || (c.letter == 'c' && !fits) then 0 else 1
  }

  // ---- the digits of printf_num ----

  lemma DigitIs(d: nat, radix: nat, capital: bool)
    requires d < radix <= 16
    ensures var ch := DigitChar(d, capital);
      DigitWorth(ch) == d && IsDigitOf(ch, radix, capital) && (d > 0 ==> ch != '0')
  {
  }

  lemma {:induction false} DigitsAreNumeral(u: nat, radix: nat, capital: bool)
    requires 2 <= radix <= 16
    ensures IsNumeral(Digits(u, radix, capital), u, radix, capital)
    ensures u > 0 ==> Digits(u, radix, capital)[0] != '0'
    decreases u
  {
    hide Quot, Rem, DigitChar, DigitWorth, IsDigitOf;
    var text := Digits(u, radix, capital);
    if u < radix {
      DigitIs(u, radix, capital);
      assert Worth(text, radix) == Worth(text[..0], radix) * radix + DigitWorth(text[0]);
      assert text[..0] == [];
    } else {
      var q, d := Quot(u, radix), Rem(u, radix);
      QuotRem(u, radix);
      DigitIs(d, radix, capital);
      DigitsAreNumeral(q, radix, capital);
      var front := Digits(q, radix, capital);
      assert text == front + [DigitChar(d, capital)] && text[..|text| - 1] == front;
      assert text[0] == front[0];
    }
  }

  // ---- values ----

  lemma SignedCuts(v: int, bits: nat)
    requires bits > 0
    ensures IsSignedCut(CutSigned(v, bits), v, bits)
  {
    PowPositive(bits);
    var p, h := Pow2(bits), Pow2(bits - 1);
    CutDiffers(v + h, p);
  }

  lemma UnsignedCuts(v: int, bits: nat)
    ensures IsUnsignedCut(CutUnsigned(v, bits), v, bits)
  {
    PowPositive(bits);
    CutDiffers(v, Pow2(bits));
  }

  lemma CutDiffers(v: int, p: int)
    requires p > 0
    ensures (v - v % p) % p == 0 && 0 <= v % p < p
  {
    assert v - v % p == p * (v / p);
    ModUnique(p * (v / p), p, v / p, 0);
  }

  /** What printf_num makes of a value handed over in 64 bits. */
  lemma HandedOver(y: int)
    ensures var x := y % UINT64_RANGE; ToSigned(y) % UINT64_RANGE == x && (ToSigned(y) != 0 <==> x != 0)
    ensures IsUnsignedCut(y % UINT64_RANGE, y, 64)
    ensures -LONG_LONG_MAX - 1 <= y <= LONG_LONG_MAX ==> ToSigned(y) == y
  {
    Range64();
    CutDiffers(y, UINT64_RANGE);
    hide Pow2;
  }

  // ---- printf_num ----

  /** The scanner's flags behind the flag characters fl and the length characters len. */
  function FlagsOf(fl: seq<char>, len: seq<char>, left: bool, hasPrecision: bool): Flags {
    Flags('#' in fl, '0' in fl, left, ' ' in fl, '+' in fl, 'l' in len, Twice(len, 'l'), 'h' in len, Twice(len, 'h'),
          'j' in len, 't' in len, 'z' in len, false, false, hasPrecision)
  }

  function FlagsFor(c: Conversion, args: seq<Arg>): Flags {
    FlagsOf(c.flags, c.length, IsLeft(c, args), !c.precision.Absent?).(signed := c.letter in {'d', 'i'},
                                                                       capital := c.letter == 'X')
  }

  /** y is how x is handed to printf_num. */
  predicate Hands(c: Conversion, x: int, y: int) {
    if c.letter in {'d', 'i'} then y == x && -LONG_LONG_MAX - 1 <= x <= LONG_LONG_MAX
    else x == y % UINT64_RANGE
  }

  lemma PartsShown(c: Conversion, args: seq<Arg>, x: int, y: int)
    requires Hands(c, x, y)
    ensures var f, v := FlagsFor(c, args), ToSigned(y); var p := PrecisionOf(c, args);
      && SignText(v, f) == SignIn(c, x) && PrefixText(v, RadixIn(c), f) == PrefixIn(c, x)
      && IsDigits(DigitText(v, RadixIn(c), p, f), c, args, x)
      && ZeroCount(v, RadixIn(c), p, f, |DigitText(v, RadixIn(c), p, f)|)
         == ZerosIn(c, args, x, |DigitText(v, RadixIn(c), p, f)|)
  {
    HandedOver(y);
    DigitsAreNumeral(Abs(x), RadixIn(c), c.letter == 'X');
    hide Digits, IsNumeral, ToSigned, BitsOf, WidthOf, PrecisionOf, Twice, IsLeft;
    assert Unsigned64(ToSigned(y), FlagsFor(c, args)) == Abs(x);
  }

  lemma NumberShown(c: Conversion, args: seq<Arg>, x: int, y: int)
    requires Hands(c, x, y)
    ensures ShowsNumber(NumText(ToSigned(y), RadixIn(c), WidthOf(c, args), PrecisionOf(c, args), FlagsFor(c, args)), c,
                        args, x)
  {
    hide SignText, PrefixText, DigitText, ZeroCount, SignIn, PrefixIn, IsDigits, ZerosIn, ToSigned, Repeat, WidthOf,
      PrecisionOf, IsLeft, RadixIn, Spread, Hands, ShowsNumber;
    PartsShown(c, args, x, y);
    var f, v, p := FlagsFor(c, args), ToSigned(y), PrecisionOf(c, args);
    var digits := DigitText(v, RadixIn(c), p, f);
    var zeros := Repeat('0', ZeroCount(v, RadixIn(c), p, f, |digits|));
    var front := SignText(v, f) + PrefixText(v, RadixIn(c), f);
    RepeatLength('0', ZeroCount(v, RadixIn(c), p, f, |digits|));
    SpreadIs(front, zeros, digits, WidthOf(c, args), f.left, if f.zero then '0' else ' ');
    ShownSo(c, args, x, digits);
  }

  lemma ShownSo(c: Conversion, args: seq<Arg>, x: int, digits: seq<char>)
    requires IsDigits(digits, c, args, x)
    ensures ShowsNumber(
      Spread(SignIn(c, x) + PrefixIn(c, x), Repeat('0', ZerosIn(c, args, x, |digits|)) + digits, WidthOf(c, args),
             IsLeft(c, args), if '0' in c.flags then '0' else ' '), c, args, x)
  {
    hide SignIn, PrefixIn, IsDigits, ZerosIn, Repeat, WidthOf, PrecisionOf, IsLeft, Spread;
  }

  lemma RepeatLength(ch: char, n: nat)
    ensures |Repeat(ch, n)| == n
  {
  }

  lemma SpreadIs(front: seq<char>, zeros: seq<char>, digits: seq<char>, width: nat, left: bool, ch: char)
    ensures var pad := width - (|digits| + |zeros| + |front|);
      Spread(front, zeros + digits, width, left, ch)
      == front + (if left then [] else Repeat(ch, pad)) + zeros + digits + (if left then Repeat(' ', pad) else [])
  {
  }

  // ---- the letter of a conversion ----

  lemma BitsBound(length: seq<char>)
    ensures 0 < BitsOf(length) <= 64
  {
  }

  /** Cutting to no more than 64 bits first changes nothing. */
  lemma CutFits(v: int, bits: nat)
    requires bits <= 64
    ensures CutUnsigned(v, bits) % UINT64_RANGE == CutUnsigned(v, bits)
    ensures bits > 0 ==> -LONG_LONG_MAX - 1 <= CutSigned(v, bits) <= LONG_LONG_MAX
  {
    Range64();
    PowPositive(bits);
    if bits < 64 { Pow2Mono(bits, 64); }
    UnsignedCuts(v, bits);
    if bits > 0 { SignedCuts(v, bits); }
    hide CutUnsigned, CutSigned;
  }

  lemma SignedGiven(c: Conversion, args: seq<Arg>, v: int)
    ensures SignedValue(v, FlagsOf(c.flags, c.length, IsLeft(c, args), !c.precision.Absent?))
      == CutSigned(v, BitsOf(c.length))
  {
    hide Pow2, Twice, IsLeft, CutSigned;
  }

  lemma UnsignedGiven(c: Conversion, args: seq<Arg>, v: int)
    ensures UnsignedValue(v, FlagsOf(c.flags, c.length, IsLeft(c, args), !c.precision.Absent?))
      == if IsPtrdiff(c.length) then CutSigned(v, 8 * W) else CutUnsigned(v, BitsOf(c.length))
  {
    hide Pow2, Twice, IsLeft, CutSigned, CutUnsigned;
  }

  predicate IsNumber(c: Conversion) { c.letter in {'d', 'i', 'u', 'o', 'x', 'X', 'p'} }

  /** The value that printf_num gets for a number. */
  function Given(c: Conversion, args: seq<Arg>, v: int): int {
    var f := FlagsOf(c.flags, c.length, IsLeft(c, args), !c.precision.Absent?);
    if c.letter in {'d', 'i'} then SignedValue(v, f)
    else if c.letter == 'p' then CutUnsigned(v, SIZE_T_BITS)
    else UnsignedValue(v, f)
  }

  lemma ValueGiven(c: Conversion, args: seq<Arg>, v: int) returns (x: int)
    requires IsNumber(c)
    ensures IsValue(c, x, v) && Hands(c, x, Given(c, args, v))
  {
    hide Pow2, CutSigned, CutUnsigned, SignedValue, UnsignedValue, IsSignedCut, IsUnsignedCut, BitsOf, IsPtrdiff;
    var bits := if c.letter == 'p' then 8 * W else BitsOf(c.length);
    BitsBound(c.length);
    CutFits(v, bits);
    SignedGiven(c, args, v);
    UnsignedGiven(c, args, v);
    if c.letter in {'d', 'i'} {
      SignedCuts(v, bits);
      x := CutSigned(v, bits);
    } else if c.letter != 'p' && IsPtrdiff(c.length) {
      SignedCuts(v, 8 * W);
      HandedOver(CutSigned(v, 8 * W));
      x := CutSigned(v, 8 * W) % UINT64_RANGE;
    } else {
      UnsignedCuts(v, bits);
      x := CutUnsigned(v, bits);
    }
  }

  /** The scanner in front of the letter. */
  function Filled(c: Conversion, args: seq<Arg>): Scanner {
    Scanner(true, FlagsOf(c.flags, c.length, IsLeft(c, args), !c.precision.Absent?), WidthOf(c, args),
            PrecisionOf(c, args), Behind(args, ValueAt(c)))
  }

  lemma ArgumentAt(args: seq<Arg>, k: nat)
    ensures IntArg(Behind(args, k)) == IntAt(args, k) && StrArg(Behind(args, k)) == StrAt(args, k)
    ensures Formatter.Rest(Behind(args, k)) == Behind(args, k + 1)
  {
  }

  lemma NumberRound(str: seq<char>, pos: nat, c: Conversion, args: seq<Arg>, opos: nat, limit: nat)
    requires pos < |str| && str[pos] == c.letter && IsNumber(c)
    ensures Directive(str, pos, Filled(c, args), opos, limit)
      == Done(Filled(c, args).(args := Behind(args, ValueAt(c) + 1)), pos,
              NumText(ToSigned(Given(c, args, IntAt(args, ValueAt(c)))), RadixIn(c), WidthOf(c, args),
                      PrecisionOf(c, args), FlagsFor(c, args)))
  {
    hide NumText, SignedValue, UnsignedValue, CutUnsigned, ToSigned, WidthOf, PrecisionOf, IsLeft, Twice, IntAt,
      Behind, ValueAt;
    ArgumentAt(args, ValueAt(c));
  }

  lemma LetterRound(str: seq<char>, pos: nat, c: Conversion, args: seq<Arg>, opos: nat, limit: nat)
    requires pos < |str| && str[pos] == c.letter && WellFormed(c)
    ensures var r := Directive(str, pos, Filled(c, args), opos, limit);
      && Says(c, args, opos < limit, r.text) && r.pos == pos + 1 && !r.s.percent
      && r.s.args == Behind(args, Takes(c, opos < limit))
  {
    hide NumText, Given, ToSigned, WidthOf, PrecisionOf, IsLeft, IntAt, Behind, ValueAt, StrAt, IsValue, ShowsNumber,
      FlagsOf;
    if IsNumber(c) {
      NumberRound(str, pos, c, args, opos, limit);
      var x := ValueGiven(c, args, IntAt(args, ValueAt(c)));
      NumberShown(c, args, x, Given(c, args, IntAt(args, ValueAt(c))));
      hide Directive;
    } else {
      OtherRound(str, pos, c, args, opos, limit);
    }
  }

  lemma OtherRound(str: seq<char>, pos: nat, c: Conversion, args: seq<Arg>, opos: nat, limit: nat)
    requires pos < |str| && str[pos] == c.letter && IsLetter(c.letter) && !IsNumber(c)
    ensures var r := Directive(str, pos, Filled(c, args), opos, limit);
      && Says(c, args, opos < limit, r.text) && r.pos == pos + 1 && !r.s.percent
      && r.s.args == Behind(args, Takes(c, opos < limit))
  {
    hide NumText, ToSigned, WidthOf, PrecisionOf, IsLeft, IntAt, Behind, ValueAt, StrAt, IsValue, ShowsNumber, Repeat,
      Twice;
    var k := ValueAt(c);
    ArgumentAt(args, k);
    CutDiffers(IntAt(args, k), 256);
  }

  // ---- up to the letter ----

  predicate At(str: seq<char>, pos: nat, text: seq<char>) {
    pos + |text| <= |str| && str[pos..pos + |text|] == text
  }

  lemma AtParts(str: seq<char>, pos: nat, text: seq<char>, more: seq<char>)
    requires At(str, pos, text + more)
    ensures At(str, pos, text) && At(str, pos + |text|, more)
  {
    var all := str[pos..pos + |text + more|];
    assert all[..|text|] == text && all[|text|..] == more;
    assert str[pos..pos + |text|] == all[..|text|];
    assert str[pos + |text|..pos + |text| + |more|] == all[|text|..];
  }

  lemma AtChar(str: seq<char>, pos: nat, text: seq<char>, k: nat)
    requires At(str, pos, text) && k < |text|
    ensures str[pos + k] == text[k]
  {
    assert str[pos..pos + |text|][k] == str[pos + k];
  }

  /** A round that prints nothing. */
  lemma QuietHop(str: seq<char>, pos: nat, s: Scanner, opos: nat, limit: nat, s': Scanner, pos': nat)
    requires pos < |str| && Step(str, pos, s, opos, limit) == Round(s', pos', [])
    ensures pos < pos' <= |str| && Output(str, pos, s, opos, limit) == Output(str, pos', s', opos, limit)
  {
    hide Step;
    var rest := Output(str, pos', s', opos, limit);
    assert [] + rest.0 == rest.0;
  }

  lemma FlagHop(str: seq<char>, pos: nat, s: Scanner, opos: nat, limit: nat)
    requires pos < |str| && s.percent && IsFlag(str[pos]) && (str[pos] != '0' || !s.f.hasPrecision)
    ensures Output(str, pos, s, opos, limit) == Output(str, pos + 1, s.(f := WithFlag(str[pos], s.f)), opos, limit)
  {
    hide WithFlag, Output;
    QuietHop(str, pos, s, opos, limit, s.(f := WithFlag(str[pos], s.f)), pos + 1);
  }

  lemma OneMore(text: seq<char>, k: nat, ch: char)
    requires k < |text|
    ensures ch in text[..k + 1] <==> ch in text[..k] || ch == text[k]
    ensures Twice(text[..k + 1], ch) <==> Twice(text[..k], ch) || (ch == text[k] && ch in text[..k])
  {
    assert text[..k + 1] == text[..k] + [text[k]];
  }

  /** Field by field, what a flag or length character sets. */
  lemma WithFlagMeans(ch: char, f: Flags, g: Flags)
    requires IsFlag(ch)
    requires (g.alt <==> f.alt || ch == '#') && (g.zero <==> f.zero || ch == '0') && (g.left <==> f.left || ch == '-')
    requires (g.blank <==> f.blank || ch == ' ') && (g.sign <==> f.sign || ch == '+')
    requires (g.long <==> f.long || ch == 'l') && (g.longLong <==> f.longLong || (ch == 'l' && f.long))
    requires (g.short <==> f.short || ch == 'h') && (g.shortShort <==> f.shortShort || (ch == 'h' && f.short))
    requires (g.intmax <==> f.intmax || ch == 'j') && (g.ptrdiff <==> f.ptrdiff || ch == 't')
    requires (g.size <==> f.size || ch == 'z')
    requires g.capital == f.capital && g.signed == f.signed && g.hasPrecision == f.hasPrecision
    ensures WithFlag(ch, f) == g
  {
    WithFlagIs(ch, f);
    hide WithFlag, IsFlag;
  }

  lemma WithFlagIs(ch: char, f: Flags)
    ensures IsFlag(ch) <==>
      (ch == '#' || ch == '0' || ch == '-' || ch == ' ' || ch == '+' || ch == '\'' || ch == 'l' || ch == 'h'
       || ch == 'j' || ch == 't' || ch == 'z')
    ensures ch == '#' ==> WithFlag(ch, f) == f.(alt := true)
    ensures ch == '0' ==> WithFlag(ch, f) == f.(zero := true)
    ensures ch == '-' ==> WithFlag(ch, f) == f.(left := true)
    ensures ch == ' ' ==> WithFlag(ch, f) == f.(blank := true)
    ensures ch == '+' ==> WithFlag(ch, f) == f.(sign := true)
    ensures ch == '\'' ==> WithFlag(ch, f) == f
    ensures ch == 'l' ==> WithFlag(ch, f) == if f.long then f.(longLong := true) else f.(long := true)
    ensures ch == 'h' ==> WithFlag(ch, f) == if f.short then f.(shortShort := true) else f.(short := true)
    ensures ch == 'j' ==> WithFlag(ch, f) == f.(intmax := true)
    ensures ch == 't' ==> WithFlag(ch, f) == f.(ptrdiff := true)
    ensures ch == 'z' ==> WithFlag(ch, f) == f.(size := true)
  {
  }

  function AfterFlags(c: Conversion, args: seq<Arg>, k: nat): Scanner
    requires k <= |c.flags|
  {
    Scanner(true, FlagsOf(c.flags[..k], [], '-' in c.flags[..k], false), 0, 0, args)
  }

  lemma FlagTaken(c: Conversion, k: nat)
    requires WellFormed(c) && k < |c.flags|
    ensures IsFlag(c.flags[k])
    ensures WithFlag(c.flags[k], FlagsOf(c.flags[..k], [], '-' in c.flags[..k], false))
      == FlagsOf(c.flags[..k + 1], [], '-' in c.flags[..k + 1], false)
  {
    hide Twice;
    OneMore(c.flags, k, '#');
    OneMore(c.flags, k, '0');
    OneMore(c.flags, k, '-');
    OneMore(c.flags, k, ' ');
    OneMore(c.flags, k, '+');
    var ch := c.flags[k];
    FlagIs(c, k);
    hide WellFormed, WithFlag, IsFlag;
    TwiceNone();
    WithFlagMeans(ch, FlagsOf(c.flags[..k], [], '-' in c.flags[..k], false),
      FlagsOf(c.flags[..k + 1], [], '-' in c.flags[..k + 1], false));
  }

  lemma FlagIs(c: Conversion, k: nat)
    requires WellFormed(c) && k < |c.flags|
    ensures IsFlag(c.flags[k]) && c.flags[k] !in {'l', 'h', 'j', 't', 'z'}
  {
    assert c.flags[k] in {'#', '0', '-', ' ', '+', '\''};
  }

  lemma LengthIs(c: Conversion, k: nat)
    requires WellFormed(c) && k < |c.length|
    ensures IsFlag(c.length[k]) && c.length[k] !in {'#', '0', '-', ' ', '+'}
  {
    assert c.length[k] in {'l', 'h', 'j', 't', 'z'};
  }

  lemma TwiceNone()
    ensures !Twice([], 'l') && !Twice([], 'h')
  {
  }

  lemma {:induction false} FlagHops(str: seq<char>, pos: nat, c: Conversion, args: seq<Arg>, k: nat, opos: nat,
                                    limit: nat)
    requires WellFormed(c) && At(str, pos, c.flags) && k <= |c.flags|
    ensures Output(str, pos + k, AfterFlags(c, args, k), opos, limit)
      == Output(str, pos + |c.flags|, AfterFlags(c, args, |c.flags|), opos, limit)
    decreases |c.flags| - k
  {
    hide Output, WellFormed, WithFlag, IsFlag, Twice;
    if k < |c.flags| {
      AtChar(str, pos, c.flags, k);
      FlagTaken(c, k);
      FlagHop(str, pos + k, AfterFlags(c, args, k), opos, limit);
      FlagHops(str, pos, c, args, k + 1, opos, limit);
    }
  }

  /** The scanner counts as Worth does. */
  lemma {:induction false} NumberIs(str: seq<char>, pos: nat, digits: seq<char>, k: nat)
    requires At(str, pos, digits) && IsDecimal(digits) && !IsDigit(str, pos + |digits|) && k <= |digits|
    ensures Number(str, pos + k, Worth(digits[..k], 10)) == (Worth(digits, 10), pos + |digits|)
    decreases |digits| - k
  {
    if k < |digits| {
      AtChar(str, pos, digits, k);
      assert digits[..k + 1][..k] == digits[..k];
      assert Worth(digits[..k + 1], 10) == Worth(digits[..k], 10) * 10 + DigitWorth(digits[k]);
      NumberIs(str, pos, digits, k + 1);
    } else {
      assert digits[..k] == digits;
    }
  }

  /** What comes behind a width or a precision is neither a digit nor a star. */
  predicate Stops(str: seq<char>, pos: nat) {
    pos < |str| && !('0' <= str[pos] <= '9') && str[pos] != '*'
  }

  function AfterWidth(c: Conversion, args: seq<Arg>): Scanner {
    Scanner(true, FlagsOf(c.flags, [], IsLeft(c, args), false), WidthOf(c, args), 0, Behind(args, PrecisionAt(c)))
  }

  lemma BehindNone(args: seq<Arg>)
    ensures Behind(args, 0) == args
  {
  }

  lemma WholeText(text: seq<char>)
    ensures text[..|text|] == text
  {
  }

  lemma WidthHop(str: seq<char>, pos: nat, c: Conversion, args: seq<Arg>, opos: nat, limit: nat)
    requires WellFormed(c) && At(str, pos, AmountText(c.width)) && Stops(str, pos + |AmountText(c.width)|)
    ensures Output(str, pos, AfterFlags(c, args, |c.flags|), opos, limit)
      == Output(str, pos + |AmountText(c.width)|, AfterWidth(c, args), opos, limit)
  {
    hide Output, Twice, NumText, StrText, SignedValue, UnsignedValue, Worth, Number, Cut;
    WholeText(c.flags);
    BehindNone(args);
    var s := AfterFlags(c, args, |c.flags|);
    match c.width
    case Absent =>
    case Written(digits) =>
      AtChar(str, pos, digits, 0);
      NumberIs(str, pos, digits, 0);
      assert digits[..0] == [] && Worth([], 10) == 0 by { WorthNone(); }
      QuietHop(str, pos, s, opos, limit, AfterWidth(c, args), pos + |digits|);
    case Star =>
      AtChar(str, pos, "*", 0);
      ArgumentAt(args, 0);
      QuietHop(str, pos, s, opos, limit, AfterWidth(c, args), pos + 1);
  }

  lemma WorthNone()
    ensures Worth([], 10) == 0
  {
  }

  function AfterPrecision(c: Conversion, args: seq<Arg>, k: nat): Scanner
    requires k <= |c.length|
  {
    Scanner(true, FlagsOf(c.flags, c.length[..k], IsLeft(c, args), !c.precision.Absent?), WidthOf(c, args),
            PrecisionOf(c, args), Behind(args, ValueAt(c)))
  }

  lemma WrittenHop(str: seq<char>, pos: nat, c: Conversion, args: seq<Arg>, opos: nat, limit: nat)
    requires WellFormed(c) && c.precision.Written? && At(str, pos, ['.'] + c.precision.digits)
    requires Stops(str, pos + 1 + |c.precision.digits|)
    ensures Output(str, pos, AfterWidth(c, args), opos, limit)
      == Output(str, pos + 1 + |c.precision.digits|, AfterPrecision(c, args, 0), opos, limit)
  {
    hide Output, Twice, NumText, StrText, SignedValue, UnsignedValue, Worth, Number, Cut, WidthOf, IsLeft, Behind;
    var digits := c.precision.digits;
    assert c.length[..0] == [];
    AtChar(str, pos, ['.'] + digits, 0);
    AtParts(str, pos, ['.'], digits);
    NumberIs(str, pos + 1, digits, 0);
    assert digits[..0] == [] && Worth([], 10) == 0 by { WorthNone(); }
    if digits != [] { AtChar(str, pos + 1, digits, 0); }
    hide At;
    QuietHop(str, pos, AfterWidth(c, args), opos, limit, AfterPrecision(c, args, 0), pos + 1 + |digits|);
  }

  lemma StarHop(str: seq<char>, pos: nat, c: Conversion, args: seq<Arg>, opos: nat, limit: nat)
    requires c.precision.Star? && At(str, pos, ".*")
    ensures Output(str, pos, AfterWidth(c, args), opos, limit)
      == Output(str, pos + 2, AfterPrecision(c, args, 0), opos, limit)
  {
    hide Output, Twice, NumText, StrText, SignedValue, UnsignedValue, Worth, Number, Cut, WidthOf, IsLeft, IntAt,
      Behind;
    assert c.length[..0] == [];
    AtChar(str, pos, ".*", 0);
    AtChar(str, pos, ".*", 1);
    ArgumentAt(args, PrecisionAt(c));
    QuietHop(str, pos, AfterWidth(c, args), opos, limit, AfterPrecision(c, args, 0), pos + 2);
  }

  lemma PrecisionHop(str: seq<char>, pos: nat, c: Conversion, args: seq<Arg>, opos: nat, limit: nat)
    requires WellFormed(c) && At(str, pos, PrecisionText(c.precision)) && Stops(str, pos + |PrecisionText(c.precision)|)
    ensures Output(str, pos, AfterWidth(c, args), opos, limit)
      == Output(str, pos + |PrecisionText(c.precision)|, AfterPrecision(c, args, 0), opos, limit)
  {
    hide Output, Twice, WidthOf, IsLeft, At, WellFormed, Stops;
    match c.precision
    case Absent =>
      assert c.length[..0] == [];
    case Written(digits) =>
      WrittenHop(str, pos, c, args, opos, limit);
    case Star =>
      assert ['.'] + "*" == ".*";
      StarHop(str, pos, c, args, opos, limit);
  }

  lemma LengthTaken(c: Conversion, left: bool, k: nat)
    requires WellFormed(c) && k < |c.length|
    ensures IsFlag(c.length[k]) && c.length[k] != '0'
    ensures WithFlag(c.length[k], FlagsOf(c.flags, c.length[..k], left, !c.precision.Absent?))
      == FlagsOf(c.flags, c.length[..k + 1], left, !c.precision.Absent?)
  {
    hide Twice;
    OneMore(c.length, k, 'l');
    OneMore(c.length, k, 'h');
    OneMore(c.length, k, 'j');
    OneMore(c.length, k, 't');
    OneMore(c.length, k, 'z');
    var ch := c.length[k];
    LengthIs(c, k);
    hide WellFormed, WithFlag, IsFlag;
    WithFlagMeans(ch, FlagsOf(c.flags, c.length[..k], left, !c.precision.Absent?),
      FlagsOf(c.flags, c.length[..k + 1], left, !c.precision.Absent?));
  }

  lemma {:induction false} LengthHops(str: seq<char>, pos: nat, c: Conversion, args: seq<Arg>, k: nat, opos: nat,
                                      limit: nat)
    requires WellFormed(c) && At(str, pos, c.length) && k <= |c.length|
    ensures Output(str, pos + k, AfterPrecision(c, args, k), opos, limit)
      == Output(str, pos + |c.length|, AfterPrecision(c, args, |c.length|), opos, limit)
    decreases |c.length| - k
  {
    hide Output, WellFormed, WithFlag, FlagsOf, IsFlag, WidthOf, PrecisionOf, Behind, IsLeft, ValueAt;
    if k < |c.length| {
      AtChar(str, pos, c.length, k);
      LengthTaken(c, IsLeft(c, args), k);
      FlagHop(str, pos + k, AfterPrecision(c, args, k), opos, limit);
      LengthHops(str, pos, c, args, k + 1, opos, limit);
    }
  }

  // ---- a whole conversion ----

  lemma LetterStops(str: seq<char>, pos: nat, c: Conversion)
    requires WellFormed(c) && At(str, pos, [c.letter])
    ensures Stops(str, pos) && str[pos] == c.letter
  {
    AtChar(str, pos, [c.letter], 0);
  }

  lemma LengthStops(str: seq<char>, pos: nat, c: Conversion)
    requires WellFormed(c) && At(str, pos, c.length) && Stops(str, pos + |c.length|)
    ensures Stops(str, pos)
  {
    if c.length != [] { AtChar(str, pos, c.length, 0); }
  }

  lemma PrecisionStops(str: seq<char>, pos: nat, c: Conversion)
    requires At(str, pos, PrecisionText(c.precision)) && Stops(str, pos + |PrecisionText(c.precision)|)
    ensures Stops(str, pos)
  {
    if !c.precision.Absent? { AtChar(str, pos, PrecisionText(c.precision), 0); }
  }

  /** Where the parts of a conversion are. */
  lemma PartsAt(str: seq<char>, pos: nat, c: Conversion) returns (width: nat, precision: nat, length: nat, letter: nat)
    requires WellFormed(c) && At(str, pos, TextOf(c))
    ensures pos < |str| && str[pos] == '%' && At(str, pos + 1, c.flags) && width == pos + 1 + |c.flags|
    ensures At(str, width, AmountText(c.width)) && precision == width + |AmountText(c.width)| && Stops(str, precision)
    ensures At(str, precision, PrecisionText(c.precision)) && length == precision + |PrecisionText(c.precision)|
      && Stops(str, length)
    ensures At(str, length, c.length) && letter == length + |c.length| && letter < |str| && str[letter] == c.letter
    ensures pos + |TextOf(c)| == letter + 1
  {
    hide WellFormed, AmountText, PrecisionText, At, Stops;
    var a, b, d, e := c.flags, AmountText(c.width), PrecisionText(c.precision), c.length;
    width := pos + 1 + |a|;
    precision := width + |b|;
    length := precision + |d|;
    letter := length + |e|;
    assert TextOf(c) == ['%'] + a + b + d + e + [c.letter];
    AtParts(str, pos, ['%'] + a + b + d + e, [c.letter]);
    AtParts(str, pos, ['%'] + a + b + d, e);
    AtParts(str, pos, ['%'] + a + b, d);
    AtParts(str, pos, ['%'] + a, b);
    AtParts(str, pos, ['%'], a);
    AtFirst(str, pos);
    LetterStops(str, letter, c);
    LengthStops(str, length, c);
    PrecisionStops(str, precision, c);
  }

  lemma AtFirst(str: seq<char>, pos: nat)
    requires At(str, pos, ['%'])
    ensures pos < |str| && str[pos] == '%'
  {
    AtChar(str, pos, ['%'], 0);
  }

  lemma PercentHop(str: seq<char>, pos: nat, c: Conversion, s: Scanner, opos: nat, limit: nat)
    requires pos < |str| && str[pos] == '%' && !s.percent
    ensures Output(str, pos, s, opos, limit) == Output(str, pos + 1, AfterFlags(c, s.args, 0), opos, limit)
  {
    hide Output, Directive;
    assert c.flags[..0] == [];
    NoFlags();
    QuietHop(str, pos, s, opos, limit, AfterFlags(c, s.args, 0), pos + 1);
  }

  lemma NoFlags()
    ensures FlagsOf([], [], false, false) == NO_FLAGS
  {
  }

  /** In any format, and whatever came before, a conversion prints what it says, and leaves the arguments behind its
      own. */
  lemma ConversionSays(str: seq<char>, pos: nat, c: Conversion, s: Scanner, opos: nat, limit: nat)
    returns (text: seq<char>, s': Scanner)
    requires WellFormed(c) && At(str, pos, TextOf(c)) && !s.percent
    ensures Says(c, s.args, opos < limit, text)
    ensures !s'.percent && s'.args == Behind(s.args, Takes(c, opos < limit))
    ensures pos + |TextOf(c)| <= |str|
    ensures Output(str, pos, s, opos, limit).0
      == text + Output(str, pos + |TextOf(c)|, s', opos + |text|, limit).0
  {
    hide Output, WellFormed, At, Stops, TextOf, Says, Takes, Behind, WidthOf, PrecisionOf, IsLeft, ValueAt, FlagsOf;
    var width, precision, length, letter := PartsAt(str, pos, c);
    PercentHop(str, pos, c, s, opos, limit);
    FlagHops(str, pos + 1, c, s.args, 0, opos, limit);
    WidthHop(str, width, c, s.args, opos, limit);
    PrecisionHop(str, precision, c, s.args, opos, limit);
    LengthHops(str, length, c, s.args, 0, opos, limit);
    LetterRound(str, letter, c, s.args, opos, limit);
    WholeText(c.length);
    assert AfterPrecision(c, s.args, |c.length|) == Filled(c, s.args);
    var r := Directive(str, letter, Filled(c, s.args), opos, limit);
    text, s' := r.text, r.s;
    LetterHop(str, letter, Filled(c, s.args), opos, limit);
  }

  lemma LetterHop(str: seq<char>, pos: nat, s: Scanner, opos: nat, limit: nat)
    requires pos < |str| && s.percent
    ensures var r := Directive(str, pos, s, opos, limit);
      Output(str, pos, s, opos, limit).0 == r.text + Output(str, r.pos, r.s, opos + |r.text|, limit).0
  {
    hide Directive;
  }

  // ---- whole formats ----

  datatype Piece = Plain(text: seq<char>) | Shown(c: Conversion)

  function PieceText(p: Piece): seq<char> { if p.Plain? then p.text else TextOf(p.c) }

  function FormatOf(pieces: seq<Piece>): seq<char> {
    if pieces == [] then [] else PieceText(pieces[0]) + FormatOf(pieces[1..])
  }

  predicate PieceOk(p: Piece) { if p.Plain? then '%' !in p.text else WellFormed(p.c) }

  ghost predicate PieceSays(p: Piece, args: seq<Arg>, fits: bool, text: seq<char>) {
    if p.Plain? then text == p.text else Says(p.c, args, fits, text)
  }

  function PieceTakes(p: Piece, fits: bool): nat { if p.Plain? then 0 else Takes(p.c, fits) }

  /** The text is what the pieces say one after the other, each of the arguments that those before it left. */
  ghost predicate AllSay(pieces: seq<Piece>, args: seq<Arg>, opos: nat, limit: nat, text: seq<char>) {
    if pieces == [] then text == []
    else exists n {:trigger text[..n]} ::
      && 0 <= n <= |text| && PieceSays(pieces[0], args, opos < limit, text[..n])
      && AllSay(pieces[1..], Behind(args, PieceTakes(pieces[0], opos < limit)), opos + n, limit, text[n..])
  }

  lemma {:induction false} PlainSays(str: seq<char>, pos: nat, text: seq<char>, k: nat, s: Scanner, opos: nat,
                                     limit: nat)
    requires At(str, pos, text) && '%' !in text && !s.percent && k <= |text|
    ensures Output(str, pos + k, s, opos + k, limit).0
      == text[k..] + Output(str, pos + |text|, s, opos + |text|, limit).0
    decreases |text| - k
  {
    hide Directive, At;
    if k < |text| {
      AtChar(str, pos, text, k);
      AtEnds(str, pos, text);
      assert text[k] != '%';
      PlainSays(str, pos, text, k + 1, s, opos, limit);
      assert text[k..] == [text[k]] + text[k + 1..];
    } else {
      AtEnds(str, pos, text);
      assert text[k..] == [];
    }
  }

  lemma AtEnds(str: seq<char>, pos: nat, text: seq<char>)
    requires At(str, pos, text)
    ensures pos + |text| <= |str|
  {
  }

  lemma PieceOutput(str: seq<char>, pos: nat, p: Piece, s: Scanner, opos: nat, limit: nat)
    returns (text: seq<char>, s': Scanner)
    requires PieceOk(p) && At(str, pos, PieceText(p)) && !s.percent
    ensures PieceSays(p, s.args, opos < limit, text)
    ensures !s'.percent && s'.args == Behind(s.args, PieceTakes(p, opos < limit))
    ensures pos + |PieceText(p)| <= |str|
    ensures Output(str, pos, s, opos, limit).0
      == text + Output(str, pos + |PieceText(p)|, s', opos + |text|, limit).0
  {
    hide Output, WellFormed, At, TextOf, Says, Takes;
    if p.Plain? {
      text, s' := p.text, s;
      BehindNone(s.args);
      AtEnds(str, pos, text);
      PlainSays(str, pos, text, 0, s, opos, limit);
      assert text[0..] == text;
    } else {
      text, s' := ConversionSays(str, pos, p.c, s, opos, limit);
    }
  }

  lemma {:induction false} PiecesSay(str: seq<char>, pos: nat, pieces: seq<Piece>, s: Scanner, opos: nat, limit: nat)
    requires (forall p :: p in pieces ==> PieceOk(p)) && !s.percent
    requires At(str, pos, FormatOf(pieces)) && pos + |FormatOf(pieces)| == |str|
    ensures AllSay(pieces, s.args, opos, limit, Output(str, pos, s, opos, limit).0)
    decreases |pieces|
  {
    hide PieceOk, At, PieceSays, PieceTakes, PieceText, Behind, Step;
    if pieces != [] {
      var p := pieces[0];
      AtParts(str, pos, PieceText(p), FormatOf(pieces[1..]));
      var text, s' := PieceOutput(str, pos, p, s, opos, limit);
      PiecesSay(str, pos + |PieceText(p)|, pieces[1..], s', opos + |text|, limit);
      hide Output;
      var all := Output(str, pos, s, opos, limit).0;
      assert all[..|text|] == text;
      assert all[|text|..] == Output(str, pos + |PieceText(p)|, s', opos + |text|, limit).0;
    }
  }

  /** vsnprintf's output for any format of conversions and text between them is what they say. */
  lemma FormatSays(pieces: seq<Piece>, args: seq<Arg>, limit: nat)
    requires forall p :: p in pieces ==> PieceOk(p)
    ensures AllSay(pieces, args, 0, limit, Full(FormatOf(pieces), args, limit).0)
  {
    var str := FormatOf(pieces);
    assert str[0..0 + |str|] == str;
    PiecesSay(str, 0, pieces, READY.(args := args), 0, limit);
  }

  /** One conversion as a format. */
  lemma OneSays(c: Conversion, args: seq<Arg>, limit: nat)
    requires WellFormed(c)
    ensures Says(c, args, 0 < limit, Full(TextOf(c), args, limit).0)
  {
    hide Says, WellFormed;
    var str := TextOf(c);
    assert str[0..0 + |str|] == str;
    var text, s := ConversionSays(str, 0, c, READY.(args := args), 0, limit);
    OutputEnd(str, s, |text|, limit, text);
    hide Output;
  }

  // ---- the text is determined ----

  lemma SameDigit(a: char, b: char, radix: nat, capital: bool)
    requires IsDigitOf(a, radix, capital) && IsDigitOf(b, radix, capital) && DigitWorth(a) == DigitWorth(b)
    ensures a == b
  {
  }

  lemma {:induction false} WorthPositive(text: seq<char>, radix: nat, capital: bool)
    requires 2 <= radix && text != [] && text[0] != '0' && IsDigitOf(text[0], radix, capital)
    ensures Worth(text, radix) > 0
    decreases |text|
  {
    if |text| > 1 {
      WorthPositive(text[..|text| - 1], radix, capital);
      MulAtLeast(Worth(text[..|text| - 1], radix), radix);
    }
  }

  lemma WorthEnds(text: seq<char>, radix: nat, capital: bool)
    requires 2 <= radix && text != [] && IsDigitOf(text[|text| - 1], radix, capital)
    ensures Worth(text, radix) % radix == DigitWorth(text[|text| - 1])
    ensures Worth(text, radix) / radix == Worth(text[..|text| - 1], radix)
  {
    var q, d := Worth(text[..|text| - 1], radix), DigitWorth(text[|text| - 1]);
    ModUnique(Worth(text, radix), radix, q, d);
  }

  lemma {:induction false} NumeralOnce(a: seq<char>, b: seq<char>, n: nat, radix: nat, capital: bool)
    requires 2 <= radix && IsNumeral(a, n, radix, capital) && IsNumeral(b, n, radix, capital)
    ensures a == b
    decreases |a|
  {
    hide DigitWorth, IsDigitOf, Worth;
    WorthEnds(a, radix, capital);
    WorthEnds(b, radix, capital);
    SameDigit(a[|a| - 1], b[|b| - 1], radix, capital);
    var front, back := a[..|a| - 1], b[..|b| - 1];
    assert a == front + [a[|a| - 1]] && b == back + [b[|b| - 1]];
    if front != [] { WorthPositive(front, radix, capital); } else { WorthEmpty(radix); }
    if back != [] { WorthPositive(back, radix, capital); } else { WorthEmpty(radix); }
    if front != [] && back != [] { NumeralOnce(front, back, n / radix, radix, capital); }
  }

  lemma WorthEmpty(radix: nat)
    ensures Worth([], radix) == 0
  {
  }

  lemma CutOnce(x: int, y: int, v: int, p: int, h: int)
    requires 0 < p && 0 <= x + h < p && 0 <= y + h < p && (v - x) % p == 0 == (v - y) % p
    ensures x == y
  {
    var a, b := (v - x) / p, (v - y) / p;
    assert v - x == p * a && v - y == p * b;
    ModUnique(v + h, p, a, x + h);
    ModUnique(v + h, p, b, y + h);
  }

  lemma ValueOnce(c: Conversion, x: int, y: int, v: int)
    requires IsNumber(c) && IsValue(c, x, v) && IsValue(c, y, v)
    ensures x == y
  {
    hide BitsOf, IsPtrdiff, Pow2;
    var bits := if c.letter == 'p' then 8 * W else BitsOf(c.length);
    BitsBound(c.length);
    PowPositive(bits);
    PowPositive(8 * W);
    PowPositive(64);
    if c.letter in {'d', 'i'} {
      CutOnce(x, y, v, Pow2(bits), Pow2(bits - 1));
    } else if c.letter != 'p' && IsPtrdiff(c.length) {
      var a :| IsSignedCut(a, v, 8 * W) && IsUnsignedCut(x, a, 64);
      var b :| IsSignedCut(b, v, 8 * W) && IsUnsignedCut(y, b, 64);
      CutOnce(a, b, v, Pow2(8 * W), Pow2(8 * W - 1));
      CutOnce(x, y, a, Pow2(64), 0);
    } else {
      CutOnce(x, y, v, Pow2(bits), 0);
    }
  }

  /** What a conversion says leaves no choice: there is one text, unless its character does not fit. */
  lemma SaysOnce(c: Conversion, args: seq<Arg>, fits: bool, t: seq<char>, u: seq<char>)
    requires WellFormed(c) && (fits || c.letter != 'c') && Says(c, args, fits, t) && Says(c, args, fits, u)
    ensures t == u
  {
    hide IsValue, Spread, SignIn, PrefixIn, ZerosIn, WidthOf, PrecisionOf, IsLeft, IsNumeral, IntAt, CutTo, Abs;
    if c.letter == 'c' {
      CutOnce(t[0] as int, u[0] as int, IntAt(args, ValueAt(c)), 256, 0);
    } else if IsNumber(c) {
      var x :| IsValue(c, x, IntAt(args, ValueAt(c))) && ShowsNumber(t, c, args, x);
      var y :| IsValue(c, y, IntAt(args, ValueAt(c))) && ShowsNumber(u, c, args, y);
      ValueOnce(c, x, y, IntAt(args, ValueAt(c)));
      ShownOnce(c, args, x, t, u);
    }
  }

  lemma ShownOnce(c: Conversion, args: seq<Arg>, x: int, t: seq<char>, u: seq<char>)
    requires ShowsNumber(t, c, args, x) && ShowsNumber(u, c, args, x)
    ensures t == u
  {
    hide IsNumeral, Spread, SignIn, PrefixIn, ZerosIn, WidthOf, PrecisionOf, IsLeft, Abs;
    var d :| IsDigits(d, c, args, x)
      && t == Spread(SignIn(c, x) + PrefixIn(c, x), Repeat('0', ZerosIn(c, args, x, |d|)) + d, WidthOf(c, args),
                     IsLeft(c, args), if '0' in c.flags then '0' else ' ');
    var e :| IsDigits(e, c, args, x)
      && u == Spread(SignIn(c, x) + PrefixIn(c, x), Repeat('0', ZerosIn(c, args, x, |e|)) + e, WidthOf(c, args),
                     IsLeft(c, args), if '0' in c.flags then '0' else ' ');
    if !(x == 0 && !c.precision.Absent? && PrecisionOf(c, args) == 0) {
      NumeralOnce(d, e, Abs(x), RadixIn(c), c.letter == 'X');
    }
  }
}
