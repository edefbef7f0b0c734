/** vsnprintf: the directive scanner, the layout of numbers and strings, and the bounded output buffer. */
module Formatter {
  import opened ChunkLayout
  import opened BinMaps
  import opened Numerals

  datatype Flags = Flags(alt: bool, zero: bool, left: bool, blank: bool, sign: bool, long: bool, longLong: bool,
    short: bool,
                         shortShort: bool, intmax: bool, ptrdiff: bool, size: bool, capital: bool, signed: bool,
                           hasPrecision: bool)

  const NO_FLAGS := Flags(false, false, false, false, false, false, false, false, false, false, false, false, false,
    false, false)

  /** One variadic argument. */
  datatype Arg = Int(v: int) | Str(s: seq<char>) | NullPtr

  /** What the scanner is in the middle of. */
  datatype Scanner = Scanner(percent: bool, f: Flags, width: int, precision: int, args: seq<Arg>)

  // ---- the output buffer ----

  function Repeat(ch: char, n: int): (s: seq<char>)
    ensures |s| == if n > 0 then n else 0
    ensures forall k {:trigger s[k]} :: 0 <= k < |s| ==> s[k] == ch
  {
    if n > 0 then seq(n, i => ch) else []
  }

  /** buf with text from opos on, as far as it lies below limit. */
  function Put(buf: seq<char>, opos: nat, limit: nat, text: seq<char>): (r: seq<char>)
    requires limit <= |buf|
    ensures |r| == |buf|
  {
    if opos < limit then
      var olen := if opos + |text| <= limit then |text| else limit - opos;
      buf[..opos] + text[..olen] + buf[opos + olen..]
    else
      buf
  }

  lemma PutPut(buf: seq<char>, opos: nat, limit: nat, text: seq<char>, more: seq<char>)
    requires limit <= |buf|
    ensures Put(Put(buf, opos, limit, text), opos + |text|, limit, more) == Put(buf, opos, limit, text + more)
  {
    var a, b := Put(Put(buf, opos, limit, text), opos + |text|, limit, more), Put(buf, opos, limit, text + more);
    forall i | 0 <= i < |buf| ensures a[i] == b[i] { }
  }

  lemma PutNothing(buf: seq<char>, opos: nat, limit: nat)
    requires limit <= |buf|
    ensures Put(buf, opos, limit, []) == buf
  {
  }

  /** memcpy from another object. */
  method MemStore(buf: array<char>, at: nat, src: seq<char>)
    requires at + |src| <= buf.Length
    modifies buf
    ensures buf[..] == old(buf[..at]) + src + old(buf[at + |src|..])
  {
    for i := 0 to |src|
      invariant forall k {:trigger buf[k]} ::
        0 <= k < buf.Length ==> buf[k] == if at <= k < at + i then src[k - at] else old(buf[k])
    {
      buf[at + i] := src[i];
    }
  }

  /** printf_string. */
  method PrintfString(buf: array<char>, opos: nat, limit: nat, src: seq<char>) returns (opos': nat)
    requires limit <= buf.Length
    modifies buf
    ensures opos' == opos + |src| && buf[..] == Put(old(buf[..]), opos, limit, src)
  {
    if opos < limit {
      var olen := if opos + |src| <= limit then |src| else limit - opos;
      MemStore(buf, opos, src[..olen]);
    }
    opos' := opos + |src|;
  }

  method MemSet(buf: array<char>, at: nat, ch: char, n: nat)
    requires at + n <= buf.Length
    modifies buf
    ensures buf[..] == old(buf[..at]) + Repeat(ch, n) + old(buf[at + n..])
  {
    for i := 0 to n
      invariant forall k {:trigger buf[k]} ::
        0 <= k < buf.Length ==> buf[k] == if at <= k < at + i then ch else old(buf[k])
    {
      buf[at + i] := ch;
    }
  }

  lemma RepeatPrefix(ch: char, n: nat, k: nat)
    requires k <= n
    ensures Repeat(ch, n)[..k] == Repeat(ch, k)
  {
  }

  /** printf_fill. */
  method PrintfFill(buf: array<char>, opos: nat, limit: nat, ch: char, len: nat) returns (opos': nat)
    requires limit <= buf.Length
    modifies buf
    ensures opos' == opos + len && buf[..] == Put(old(buf[..]), opos, limit, Repeat(ch, len))
  {
    hide Repeat;
    if opos < limit {
      var olen := if opos + len <= limit then len else limit - opos;
      RepeatPrefix(ch, len, olen);
      MemSet(buf, opos, ch, olen);
    }
    opos' := opos + len;
  }

  // ---- numbers ----

  function SignText(value: int, f: Flags): seq<char> {
    if !f.signed then [] else if value < 0 then ['-'] else if f.sign then ['+'] else if f.blank then [' '] else []
  }

  function Unsigned64(value: int, f: Flags): nat {
    if f.signed then Magnitude(value) else value % UINT64_RANGE
  }

  function DigitText(value: int, radix: nat, precision: int, f: Flags): seq<char>
    requires 2 <= radix <= 16
  {
    if Unsigned64(value, f) != 0 || !f.hasPrecision
      || precision != 0 then Digits(Unsigned64(value, f), radix, f.capital) else []
  }

  function PrefixText(value: int, radix: nat, f: Flags): seq<char> {
    if f.alt && value != 0 && radix == 16 then "0x" else []
  }

  /** Zeros that the precision, or an octal number's alternative form, asks for. */
  function ZeroCount(value: int, radix: nat, precision: int, f: Flags, len: nat): nat {
    if f.alt && value != 0 && radix == 8 && (!f.hasPrecision || precision <= len) then 1
    else if f.hasPrecision && len < precision then precision - len
    else 0
  }

  /** All that printf_num prints. */
  function NumText(value: int, radix: nat, width: int, precision: int, f: Flags): seq<char>
    requires 2 <= radix <= 16
  {
    var sign, prefix, digits := SignText(value, f), PrefixText(value, radix, f), DigitText(value, radix, precision, f);
    var zeros := ZeroCount(value, radix, precision, f, |digits|);
    var pad := width - (|digits| + zeros + |sign| + |prefix|);
    sign + prefix + (if f.left then [] else Repeat(if f.zero then '0' else ' ', pad)) + Repeat('0', zeros) + digits
      + (if f.left then Repeat(' ', pad) else [])
  }

  /** What has been printed so far: text, from opos0 on, into what buf0 was. */
  ghost predicate Printed(now: seq<char>, opos: nat, buf0: seq<char>, opos0: nat, limit: nat, text: seq<char>) {
    limit <= |buf0| && now == Put(buf0, opos0, limit, text) && opos == opos0 + |text|
  }

  method EmitString(buf: array<char>, opos: nat, limit: nat, src: seq<char>, ghost buf0: seq<char>, ghost opos0: nat,
                    ghost text: seq<char>) returns (opos': nat)
    requires Printed(buf[..], opos, buf0, opos0, limit, text)
    modifies buf
    ensures Printed(buf[..], opos', buf0, opos0, limit, text + src)
  {
    hide Put;
    PutPut(buf0, opos0, limit, text, src);
    opos' := PrintfString(buf, opos, limit, src);
  }

  method EmitFill(buf: array<char>, opos: nat, limit: nat, ch: char, len: int, ghost buf0: seq<char>, ghost opos0: nat,
                  ghost text: seq<char>) returns (opos': nat)
    requires Printed(buf[..], opos, buf0, opos0, limit, text) && 0 <= len
    modifies buf
    ensures Printed(buf[..], opos', buf0, opos0, limit, text + Repeat(ch, len))
  {
    hide Put, Repeat;
    PutPut(buf0, opos0, limit, text, Repeat(ch, len));
    opos' := PrintfFill(buf, opos, limit, ch, len);
  }

  /** printf_num up to the digits: the sign, then 0x. */
  method PrintfSign(obuf: array<char>, opos0: nat, limit: nat, value: int, radix: nat, f: Flags)
    returns (opos: nat, extralen: nat)
    requires limit <= obuf.Length
    modifies obuf
    ensures Printed(obuf[..], opos, old(obuf[..]), opos0, limit, SignText(value, f) + PrefixText(value, radix, f))
    ensures extralen == |SignText(value, f)| + |PrefixText(value, radix, f)|
  {
    hide Put;
    ghost var buf0 := obuf[..];
    PutNothing(buf0, opos0, limit);
    opos, extralen := opos0, 0;
    if f.signed {
      if value < 0 {
        opos := EmitFill(obuf, opos, limit, '-', 1, buf0, opos0, []);
        extralen := extralen + 1;
      } else if f.sign {
        opos := EmitFill(obuf, opos, limit, '+', 1, buf0, opos0, []);
        extralen := extralen + 1;
      } else if f.blank {
        opos := EmitFill(obuf, opos, limit, ' ', 1, buf0, opos0, []);
        extralen := extralen + 1;
      }
    }
    RepeatOne('-');
    RepeatOne('+');
    RepeatOne(' ');
    assert Printed(obuf[..], opos, buf0, opos0, limit, SignText(value, f));
    if f.alt && value != 0 && radix == 16 {
      opos := EmitString(obuf, opos, limit, "0x", buf0, opos0, SignText(value, f));
      extralen := extralen + 2;
    } else {
      assert SignText(value, f) + [] == SignText(value, f);
    }
  }

  lemma RepeatOne(ch: char)
    ensures [] + Repeat(ch, 1) == [ch]
  {
  }

  /** A fill that is made only when there is something to fill. */
  method EmitPad(buf: array<char>, opos: nat, limit: nat, ch: char, n: int, ghost buf0: seq<char>, ghost opos0: nat,
                 ghost text: seq<char>) returns (opos': nat)
    requires Printed(buf[..], opos, buf0, opos0, limit, text)
    modifies buf
    ensures Printed(buf[..], opos', buf0, opos0, limit, text + Repeat(ch, n))
  {
    hide Put, Printed, Repeat;
    opos' := opos;
    if n > 0 {
      opos' := EmitFill(buf, opos, limit, ch, n, buf0, opos0, text);
    } else {
      RepeatNone(ch, n);
      assert text + [] == text;
    }
  }

  /** The end of printf_num: padding, zeros, digits, padding. */
  method LayOut(obuf: array<char>, opos0: nat, limit: nat, pad: int, zeros: int, digits: seq<char>, f: Flags,
                ghost buf0: seq<char>, ghost start: nat, ghost text: seq<char>) returns (opos: nat)
    requires Printed(obuf[..], opos0, buf0, start, limit, text)
    modifies obuf
    ensures Printed(obuf[..], opos, buf0, start, limit,
                    text + (if f.left then []
                      else Repeat(if f.zero then '0' else ' ', pad)) + Repeat('0', zeros) + digits
                      + (if f.left then Repeat(' ', pad) else []))
  {
    hide Put, Printed, Repeat;
    opos := opos0;
    ghost var left := if f.left then [] else Repeat(if f.zero then '0' else ' ', pad);
    if !f.left { opos := EmitPad(obuf, opos, limit, if f.zero then '0' else ' ', pad, buf0, start, text); }
    assert !f.left || text + left == text;
    opos := EmitPad(obuf, opos, limit, '0', zeros, buf0, start, text + left);
    opos := EmitString(obuf, opos, limit, digits, buf0, start, text + left + Repeat('0', zeros));
    ghost var t := text + left + Repeat('0', zeros) + digits;
    if f.left { opos := EmitPad(obuf, opos, limit, ' ', pad, buf0, start, t); }
    assert f.left || t + [] == t;
  }

  /** printf_num's digits, in a buffer of their own. */
  method NumDigits(value: int, radix: nat, precision: int, f: Flags) returns (digits: seq<char>)
    requires 2 <= radix <= 16 && -LONG_LONG_MAX - 1 <= value <= LONG_LONG_MAX
    ensures digits == DigitText(value, radix, precision, f)
  {
    var buf := new char[65];
    var pos := 64;
    var uval: nat := if f.signed then Magnitude(value) else value % UINT64_RANGE;
    if uval != 0 || !f.hasPrecision || precision != 0 {
      pos := FillDigits(buf, uval, radix, f.capital);
    }
    digits := buf[pos + 1..];
  }

  /** printf_num. */
  method PrintfNum(obuf: array<char>, opos0: nat, limit: nat, value: int, radix: nat, width: int, precision: int,
                   f: Flags) returns (opos: nat)
    requires limit <= obuf.Length && 2 <= radix <= 16 && -LONG_LONG_MAX - 1 <= value <= LONG_LONG_MAX
    modifies obuf
    ensures Printed(obuf[..], opos, old(obuf[..]), opos0, limit, NumText(value, radix, width, precision, f))
  {
    hide Put, Printed, Repeat, SignText, PrefixText, DigitText;
    ghost var buf0 := obuf[..];
    var digits := NumDigits(value, radix, precision, f);
    var len := |digits|;
    var extralen;
    opos, extralen := PrintfSign(obuf, opos0, limit, value, radix, f);
    var zeros: int := 0;
    var prec, hasPrecision := precision, f.hasPrecision;
    if f.alt && value != 0 && radix == 8 && (!hasPrecision || prec <= len) {
      hasPrecision := true;
      prec := len + 1;
    }
    if hasPrecision && len < prec {
      zeros := prec - len;
      len := len + zeros;
    }
    len := len + extralen;
    opos := LayOut(obuf, opos, limit, width - len, zeros, digits, f, buf0, opos0,
      SignText(value, f) + PrefixText(value, radix, f));
  }

  lemma RepeatNone(ch: char, n: int)
    ensures n <= 0 ==> Repeat(ch, n) == []
  {
  }

  // ---- directives ----

  /** va_arg: the next argument; one that is missing or of another kind reads as zero or null. */
  function IntArg(args: seq<Arg>): int { if |args| > 0 && args[0].Int? then args[0].v else 0 }

  function StrArg(args: seq<Arg>): seq<char> { if |args| > 0 && args[0].Str? then args[0].s else "(null)" }

  function Rest(args: seq<Arg>): seq<Arg> { if |args| > 0 then args[1..] else [] }

  /** A value cut to a number of bits, read with and without a sign. */
  function CutSigned(v: int, bits: nat): int
    requires bits > 0
  {
    (v + Pow2(bits - 1)) % Pow2(bits) - Pow2(bits - 1)
  }

  function CutUnsigned(v: int, bits: nat): nat { v % Pow2(bits) }

  function SignedValue(v: int, f: Flags): int {
    CutSigned(v, if f.intmax || f.longLong then 64 else if f.size || f.ptrdiff || f.long then SIZE_T_BITS
                 else if f.shortShort then 8 else if f.short then 16 else 32)
  }

  /** A ptrdiff_t argument is read as signed even here. */
  function UnsignedValue(v: int, f: Flags): int {
    if f.intmax || f.longLong then CutUnsigned(v, 64)
    else if f.size then CutUnsigned(v, SIZE_T_BITS)
    else if f.ptrdiff then CutSigned(v, SIZE_T_BITS)
    else CutUnsigned(v, if f.long then SIZE_T_BITS else if f.shortShort then 8 else if f.short then 16 else 32)
  }

  predicate IsDigit(str: seq<char>, pos: nat) { pos < |str| && '0' <= str[pos] <= '9' }

  /** Decimal digits from pos on, behind the value so far; and where they stop. */
  function Number(str: seq<char>, pos: nat, acc: nat): (r: (nat, nat))
    requires pos <= |str|
    ensures pos <= r.1 <= |str| && (IsDigit(str, pos) ==> pos < r.1)
    decreases |str| - pos
  {
    if IsDigit(str, pos) then Number(str, pos + 1, 10 * acc + (str[pos] as int - '0' as int)) else (acc, pos)
  }

  /** One round of the scanner: the new state, where it goes on, and what it prints. */
  datatype Round = Round(s: Scanner, pos: nat, text: seq<char>)

  function Done(s: Scanner, pos: nat, text: seq<char>): Round {
    Round(s.(percent := false), pos + 1, text)
  }

  /** The flags, and the characters that give an argument's type. */
  predicate IsFlag(c: char) { c in {'#', '0', '-', ' ', '+', '\'', 'l', 'h', 'j', 't', 'z'} }

  function WithFlag(c: char, f: Flags): Flags {
    if c == '#' then f.(alt := true)
    else if c == '0' then f.(zero := true)
    else if c == '-' then f.(left := true)
    else if c == ' ' then f.(blank := true)
    else if c == '+' then f.(sign := true)
    else if c == 'l' then if f.long then f.(longLong := true) else f.(long := true)
    else if c == 'h' then if f.short then f.(shortShort := true) else f.(short := true)
    else if c == 'j' then f.(intmax := true)
    else if c == 't' then f.(ptrdiff := true)
    else if c == 'z' then f.(size := true)
    else f
  }

  /** %d and %i; %u, %o, %x and %X; %p. */
  function NumDirective(s: Scanner, pos: nat, value: int, radix: nat, f: Flags): Round
    requires 2 <= radix <= 16
  {
    Done(s.(args := Rest(s.args)), pos, NumText(ToSigned(value), radix, s.width, s.precision, f))
  }

  function Cut(text: seq<char>, s: Scanner): seq<char> {
    if s.f.hasPrecision && 0 <= s.precision < |text| then text[..s.precision] else text
  }

  /** %s. */
  function StrText(text: seq<char>, width: int, left: bool): seq<char> {
    (if left then [] else Repeat(' ', width - |text|)) + text + (if left then Repeat(' ', width - |text|) else [])
  }

  function Directive(str: seq<char>, pos: nat, s: Scanner, opos: nat, limit: nat): (r: Round)
    requires pos < |str|
    ensures pos < r.pos <= |str|
  {
    var c, f := str[pos], s.f;
    if IsFlag(c) && (c != '0' || !f.hasPrecision) then Round(s.(f := WithFlag(c, f)), pos + 1, [])
    else if '0' <= c <= '9' && !f.hasPrecision then
      var n := Number(str, pos, if s.width < 0 then 0 else s.width);
      Round(s.(width := n.0), n.1, [])
    else if c == '*' && s.width == 0 && !f.hasPrecision then
      var v := IntArg(s.args);
      Round(s.(args := Rest(s.args), width := if v < 0 then -v else v, f := f.(left := f.left || v < 0)), pos + 1, [])
    else if c == '.' then
      if pos + 1 < |str| && str[pos + 1] == '*' then
        var v := IntArg(s.args);
        Round(s.(args := Rest(s.args), precision := if v < 0 then 0 else v, f := f.(hasPrecision := true)), pos + 2, [])
      else
        var n := Number(str, pos + 1, if s.precision < 0 then 0 else s.precision);
        Round(s.(precision := n.0, f := f.(hasPrecision := true)), n.1, [])
    else if c == 'd' || c == 'i' then NumDirective(s, pos, SignedValue(IntArg(s.args), f), 10, f.(signed := true))
    else if c == 'X' then NumDirective(s, pos, UnsignedValue(IntArg(s.args), f), 16, f.(capital := true))
    else if c == 'x' then NumDirective(s, pos, UnsignedValue(IntArg(s.args), f), 16, f)
    else if c == 'o' then NumDirective(s, pos, UnsignedValue(IntArg(s.args), f), 8, f)
    else if c == 'u' then NumDirective(s, pos, UnsignedValue(IntArg(s.args), f), 10, f)
    else if c == 'p' then NumDirective(s, pos, CutUnsigned(IntArg(s.args), SIZE_T_BITS), 16, f)
    else if c == 'c' then
      if opos < limit then Done(s.(args := Rest(s.args)), pos, [CharOf(IntArg(s.args))]) else Done(s, pos, ['\0'])
    else if c == 's' then Done(s.(args := Rest(s.args)), pos, StrText(Cut(StrArg(s.args), s), s.width, f.left))
    else if c == 'n' then Done(s.(args := Rest(s.args)), pos, [])
    else Done(s, pos, [c])
  }

  function CharOf(v: int): char { (v % 256) as char }

  function Step(str: seq<char>, pos: nat, s: Scanner, opos: nat, limit: nat): (r: Round)
    requires pos < |str|
    ensures pos < r.pos <= |str|
  {
    if s.percent then Directive(str, pos, s, opos, limit)
    else if str[pos] == '%' then Round(Scanner(true, NO_FLAGS, 0, 0, s.args), pos + 1, [])
    else Round(s, pos + 1, [str[pos]])
  }

  /** The whole output from pos on, when opos characters came before and limit of them fit, and the last scanner
      state. */
  function Output(str: seq<char>, pos: nat, s: Scanner, opos: nat, limit: nat): (r: (seq<char>, Scanner))
    requires pos <= |str|
    decreases |str| - pos
  {
    if pos == |str| then ([], s)
    else
      var round := Step(str, pos, s, opos, limit);
      var rest := Output(str, round.pos, round.s, opos + |round.text|, limit);
      (round.text + rest.0, rest.1)
  }

  const READY := Scanner(false, NO_FLAGS, 0, 0, [])

  /** What vsnprintf prints in full when limit characters fit in its buffer. */
  function Full(str: seq<char>, args: seq<Arg>, limit: nat): (seq<char>, Scanner) {
    Output(str, 0, READY.(args := args), 0, limit)
  }

  // ---- vsnprintf ----

  method ReadNumber(str: seq<char>, pos: nat, acc: nat) returns (n: nat, pos': nat)
    requires pos <= |str|
    ensures (n, pos') == Number(str, pos, acc)
  {
    n, pos' := acc, pos;
    while IsDigit(str, pos')
      invariant pos' <= |str| && Number(str, pos', n) == Number(str, pos, acc)
      decreases |str| - pos'
    {
      n := 10 * n + (str[pos'] as int - '0' as int);
      pos' := pos' + 1;
    }
  }

  /** The flag and length characters. */
  method ScanFlag(c: char, f: Flags) returns (handled: bool, f': Flags)
    requires c != '0' || !f.hasPrecision
    ensures handled <==> IsFlag(c)
    ensures handled ==> f' == WithFlag(c, f)
  {
    handled, f' := true, f;
    match c {
      case '#' => f' := f.(alt := true);
      case '0' => f' := f.(zero := true);
      case '-' => f' := f.(left := true);
      case ' ' => f' := f.(blank := true);
      case '+' => f' := f.(sign := true);
      case '\'' =>
      case 'l' => if f.long { f' := f.(longLong := true); } else { f' := f.(long := true); }
      case 'h' => if f.short { f' := f.(shortShort := true); } else { f' := f.(short := true); }
      case 'j' => f' := f.(intmax := true);
      case 't' => f' := f.(ptrdiff := true);
      case 'z' => f' := f.(size := true);
      case _ => handled := false;
    }
  }

  /** Flags, width and precision: the directive characters that print nothing. */
  method ScanSpec(str: seq<char>, pos: nat, s: Scanner) returns (handled: bool, s': Scanner, pos': nat)
    requires pos < |str| && s.width >= 0 && s.precision >= 0
    ensures handled ==> forall opos: nat, limit: nat {:trigger Directive(str, pos, s, opos, limit)} ::
      Directive(str, pos, s, opos, limit) == Round(s', pos', [])
    ensures handled ==> s'.width >= 0 && s'.precision >= 0
    ensures !handled ==> Prints(str, pos, s)
  {
    hide NumText, StrText, SignedValue, UnsignedValue, Cut, WithFlag;
    var c := str[pos];
    handled, s', pos' := true, s, pos + 1;
    if '0' <= c <= '9' && !s.f.hasPrecision && c != '0' {
      var n;
      n, pos' := ReadNumber(str, pos, s.width);
      s' := s.(width := n);
    } else if c == '*' && s.width == 0 && !s.f.hasPrecision {
      var v := IntArg(s.args);
      s' := s.(args := Rest(s.args), width := v);
      if v < 0 { s' := s'.(width := -v, f := s'.f.(left := true)); }
    } else if c == '.' {
      s' := s.(f := s.f.(hasPrecision := true));
      if pos + 1 < |str| && str[pos + 1] == '*' {
        pos' := pos + 2;
        var v := IntArg(s.args);
        s' := s'.(args := Rest(s.args), precision := if v < 0 then 0 else v);
      } else {
        var n;
        n, pos' := ReadNumber(str, pos + 1, s.precision);
        s' := s'.(precision := n);
      }
    } else if c != '0' || !s.f.hasPrecision {
      var f;
      handled, f := ScanFlag(c, s.f);
      s' := s.(f := f);
    } else {
      handled := false;
    }
  }

  /** The directive characters that end a directive. */
  predicate Prints(str: seq<char>, pos: nat, s: Scanner) {
    pos < |str| && var c := str[pos];
      c != '.' && !(IsFlag(c) && (c != '0' || !s.f.hasPrecision)) && !('0' <= c <= '9' && !s.f.hasPrecision)
      && !(c == '*' && s.width == 0 && !s.f.hasPrecision)
  }

  lemma PrintedThen(now: seq<char>, opos: nat, mid: seq<char>, omid: nat, buf0: seq<char>, opos0: nat, limit: nat,
                    text: seq<char>, more: seq<char>)
    requires Printed(mid, omid, buf0, opos0, limit, text) && Printed(now, opos, mid, omid, limit, more)
    ensures Printed(now, opos, buf0, opos0, limit, text + more)
  {
    hide Put;
    PutPut(buf0, opos0, limit, text, more);
  }

  /** %s: padding, the string, padding. */
  method PrintfStr(buf: array<char>, opos0: nat, limit: nat, text: seq<char>, width: int, left: bool)
    returns (opos: nat)
    requires limit <= buf.Length
    modifies buf
    ensures Printed(buf[..], opos, old(buf[..]), opos0, limit, StrText(text, width, left))
  {
    hide Put, Repeat, Printed;
    ghost var buf0 := buf[..];
    opos := opos0;
    PrintedNothing(buf0, opos0, limit);
    ghost var t := [];
    if !left {
      opos := EmitPad(buf, opos, limit, ' ', width - |text|, buf0, opos0, []);
      t := Repeat(' ', width - |text|);
      assert [] + t == t;
    }
    opos := EmitString(buf, opos, limit, text, buf0, opos0, t);
    if left {
      assert t + text == [] + text;
      opos := EmitPad(buf, opos, limit, ' ', width - |text|, buf0, opos0, t + text);
    } else {
      assert t + text + [] == t + text;
    }
  }

  lemma PrintedNothing(buf: seq<char>, opos: nat, limit: nat)
    requires limit <= |buf|
    ensures Printed(buf, opos, buf, opos, limit, [])
  {
    PutNothing(buf, opos, limit);
  }

  /** if (opos < size - 1) buf[opos] = c; opos++; */
  method PutChar(buf: array<char>, opos: nat, limit: nat, c: char) returns (opos': nat)
    requires limit <= buf.Length
    modifies buf
    ensures Printed(buf[..], opos', old(buf[..]), opos, limit, [c])
  {
    if opos < limit { buf[opos] := c; }
    opos' := opos + 1;
  }

  /** The radix of an unsigned directive: 10, less 2 for o, and 18 less 2 for x. */
  function RadixOf(c: char): nat
    requires c in {'u', 'o', 'x', 'X'}
  {
    if c == 'u' then 10 else if c == 'o' then 10 - 2 else 18 - 2
  }

  lemma SignedRange(v: int)
    ensures -LONG_LONG_MAX - 1 <= ToSigned(v) <= LONG_LONG_MAX
  {
  }

  /** %d, %i, %u, %o, %x, %X and %p. */
  method ConvertNumber(buf: array<char>, opos: nat, limit: nat, str: seq<char>, pos: nat, s: Scanner)
    returns (s': Scanner, opos': nat)
    requires limit <= buf.Length && pos < |str| && str[pos] in {'d', 'i', 'u', 'o', 'x', 'X', 'p'}
    modifies buf
    ensures var r := Directive(str, pos, s, opos, limit);
      s' == r.s && r.pos == pos + 1 && Printed(buf[..], opos', old(buf[..]), opos, limit, r.text)
    ensures s'.width == s.width && s'.precision == s.precision
  {
    hide NumText, Printed, SignedValue, UnsignedValue, CutUnsigned, ToSigned;
    var c, f := str[pos], s.f;
    var value, radix := 0, 10;
    if c == 'd' || c == 'i' {
      value := SignedValue(IntArg(s.args), f);
      f := f.(signed := true);
    } else if c == 'p' {
      value := CutUnsigned(IntArg(s.args), SIZE_T_BITS);
      radix := 16;
    } else {
      if c == 'X' { f := f.(capital := true); }
      radix := RadixOf(c);
      value := UnsignedValue(IntArg(s.args), f);
      CapitalIgnored(IntArg(s.args), s.f);
    }
    SignedRange(value);
    opos' := PrintfNum(buf, opos, limit, ToSigned(value), radix, s.width, s.precision, f);
    s' := s.(percent := false, args := Rest(s.args));
  }

  lemma CapitalIgnored(v: int, f: Flags)
    ensures UnsignedValue(v, f.(capital := true)) == UnsignedValue(v, f)
  {
  }

  /** %c, %s, %n, and everything that is no directive. */
  method ConvertOther(buf: array<char>, opos: nat, limit: nat, str: seq<char>, pos: nat, s: Scanner)
    returns (s': Scanner, opos': nat)
    requires limit <= buf.Length && Prints(str, pos, s) && str[pos] !in {'d', 'i', 'u', 'o', 'x', 'X', 'p'}
    modifies buf
    ensures var r := Directive(str, pos, s, opos, limit);
      s' == r.s && r.pos == pos + 1 && Printed(buf[..], opos', old(buf[..]), opos, limit, r.text)
    ensures s'.width == s.width && s'.precision == s.precision
  {
    hide StrText, Repeat, NumText;
    var c := str[pos];
    s' := s.(percent := false);
    if c == 'c' {
      if opos < limit {
        buf[opos] := CharOf(IntArg(s.args));
        s' := s'.(args := Rest(s.args));
      }
      opos' := opos + 1;
    } else if c == 's' {
      s' := s'.(args := Rest(s.args));
      opos' := PrintfStr(buf, opos, limit, Cut(StrArg(s.args), s), s.width, s.f.left);
    } else if c == 'n' {
      s' := s'.(args := Rest(s.args));
      opos' := opos;
      PrintedNothing(buf[..], opos, limit);
    } else {
      opos' := PutChar(buf, opos, limit, c);
    }
  }

  /** One round of the loop of vsnprintf. */
  method OneRound(buf: array<char>, opos: nat, limit: nat, str: seq<char>, pos: nat, s: Scanner)
    returns (s': Scanner, pos': nat, opos': nat)
    requires limit <= buf.Length && pos < |str| && s.width >= 0 && s.precision >= 0
    modifies buf
    ensures var round := Step(str, pos, s, opos, limit);
      s' == round.s && pos' == round.pos && Printed(buf[..], opos', old(buf[..]), opos, limit, round.text)
    ensures s'.width >= 0 && s'.precision >= 0
  {
    hide Put, Directive, NumText, Printed, Prints;
    PrintedNothing(buf[..], opos, limit);
    s', pos', opos' := s, pos + 1, opos;
    if !s.percent {
      if str[pos] == '%' {
        s' := Scanner(true, NO_FLAGS, 0, 0, s.args);
      } else {
        opos' := PutChar(buf, opos, limit, str[pos]);
      }
    } else {
      var handled;
      handled, s', pos' := ScanSpec(str, pos, s);
      if !handled {
        pos' := pos + 1;
        if str[pos] in {'d', 'i', 'u', 'o', 'x', 'X', 'p'} {
          s', opos' := ConvertNumber(buf, opos, limit, str, pos, s);
        } else {
          s', opos' := ConvertOther(buf, opos, limit, str, pos, s);
        }
      }
    }
  }

  lemma PrintedMeans(now: seq<char>, opos: nat, buf0: seq<char>, limit: nat, text: seq<char>)
    requires Printed(now, opos, buf0, 0, limit, text)
    ensures limit <= |buf0| && now == Put(buf0, 0, limit, text) && opos == |text|
  {
  }

  lemma OutputStep(str: seq<char>, pos: nat, s: Scanner, opos: nat, limit: nat, text: seq<char>)
    requires pos < |str|
    ensures var round := Step(str, pos, s, opos, limit);
      text + Output(str, pos, s, opos, limit).0 ==
        text + round.text + Output(str, round.pos, round.s, opos + |round.text|, limit).0
  {
    hide Step;
  }

  /** size - 1, in a size_t: no bound at all when size is zero. */
  function Limit(size: nat): (limit: nat)
    requires size < SIZE_T_RANGE
  {
    (size - 1) % SIZE_T_RANGE
  }

  /** vsnprintf stores at index i when its whole output has len characters. */
  predicate StoresAt(size: nat, len: nat, i: nat)
    requires size < SIZE_T_RANGE
  {
    (i < len && i < Limit(size)) || (size > 0 && i == if len < size then len else size - 1)
  }

  /** vsnprintf into the memory buf begins: the full output as far as size - 1 lets it go, and, unless size is
      zero, a terminator; the result is the full length. */
  method Vsnprintf(buf: array<char>, size: nat, str: seq<char>, args: seq<Arg>) returns (opos: nat)
    requires size < SIZE_T_RANGE && size <= buf.Length && Limit(size) <= buf.Length && '\0' !in str
    modifies buf
    ensures var full := Full(str, args, Limit(size)).0; var text := Put(old(buf[..]), 0, Limit(size), full);
      opos == |full| && buf[..] == if size == 0 then text else text[(if opos < size then opos else size - 1) := '\0']
    ensures forall i :: 0 <= i < buf.Length && !StoresAt(size, opos, i) ==> buf[i] == old(buf[i])
    ensures forall i :: 0 <= i < opos && i < Limit(size) ==> buf[i] == Full(str, args, Limit(size)).0[i]
    ensures size > 0 ==> buf[if opos < size then opos else size - 1] == '\0'
  {
    hide Step, Printed, Put;
    ghost var buf0 := buf[..];
    var limit := (size - 1) % SIZE_T_RANGE;
    ghost var text: seq<char> := [];
    var s, pos := READY.(args := args), 0;
    opos := 0;
    PrintedNothing(buf0, 0, limit);
    assert [] + Full(str, args, limit).0 == Full(str, args, limit).0;
    hide Output;
    while pos < |str|
      invariant pos <= |str| && s.width >= 0 && s.precision >= 0 && Printed(buf[..], opos, buf0, 0, limit, text)
        && opos == |text|
      invariant Full(str, args, limit).0 == text + Output(str, pos, s, opos, limit).0
      decreases |str| - pos
    {
      ghost var mid, omid, round := buf[..], opos, Step(str, pos, s, opos, limit);
      OutputStep(str, pos, s, opos, limit, text);
      s, pos, opos := OneRound(buf, opos, limit, str, pos, s);
      PrintedThen(buf[..], opos, mid, omid, buf0, 0, limit, text, round.text);
      text := text + round.text;
      PrintedMeans(buf[..], opos, buf0, limit, text);
    }
    OutputEnd(str, s, opos, limit, text);
    PrintedMeans(buf[..], opos, buf0, limit, text);
    PutChanges(buf0, limit, text);
    Terminate(buf, opos, size);
    assert buf[..] == if size == 0 then Put(buf0, 0, limit, text)
      else Put(buf0, 0, limit, text)[(if opos < size then opos else size - 1) := '\0'];
  }

  /** The character after the text, or the last one there is room for. */
  method Terminate(buf: array<char>, opos: nat, size: nat)
    requires size <= buf.Length
    modifies buf
    ensures buf[..] == if size == 0 then old(buf[..])
      else old(buf[..])[(if opos < size then opos else size - 1) := '\0']
  {
    if opos < size {
      buf[opos] := '\0';
    } else if size > 0 {
      buf[size - 1] := '\0';
    }
  }

  lemma PutChanges(buf: seq<char>, limit: nat, text: seq<char>)
    requires limit <= |buf|
    ensures forall i {:trigger Put(buf, 0, limit, text)[i]} :: 0 <= i < |buf| && !(i < |text| && i < limit) ==>
      Put(buf, 0, limit, text)[i] == buf[i]
    ensures forall i {:trigger Put(buf, 0, limit, text)[i]} :: 0 <= i < |text| && i < limit ==>
      Put(buf, 0, limit, text)[i] == text[i]
  {
  }

  /** The buffer's size bounds the stores exactly when it is at least one or there is nothing to print. */
  lemma SizeBounds(size: nat, len: nat)
    requires size < SIZE_T_RANGE && len < SIZE_T_RANGE
    ensures (forall i: nat :: StoresAt(size, len, i) ==> i < size) <==> size >= 1 || len == 0
  {
    if size == 0 && len > 0 { assert StoresAt(size, len, 0); }
  }

  /** One character printed into a buffer of no size is stored all the same. */
  lemma ZeroSizeStores(str: seq<char>, args: seq<Arg>)
    requires str == "x"
    ensures Full(str, args, Limit(0)).0 == "x" && StoresAt(0, |Full(str, args, Limit(0)).0|, 0)
  {
    var s := READY.(args := args);
    assert Step(str, 0, s, 0, Limit(0)) == Round(s, 1, [str[0]]);
    hide Step;
    assert Output(str, 1, s, 1, Limit(0)) == ([], s);
  }

  lemma OutputEnd(str: seq<char>, s: Scanner, opos: nat, limit: nat, text: seq<char>)
    ensures text + Output(str, |str|, s, opos, limit).0 == text
  {
  }

  // ---- %c ----

  lemma IntRange()
    ensures Pow2(31) == 0x8000_0000 && Pow2(32) == 0x1_0000_0000
  {
    assert Pow2(8) == 256;
    assert Pow2(16) == 256 * Pow2(8);
    assert Pow2(24) == 256 * Pow2(16);
    assert Pow2(31) == 128 * Pow2(24);
  }

  lemma SmallValue(v: int)
    requires 0 <= v < 256
    ensures ToSigned(SignedValue(v, NO_FLAGS)) == v
  {
    hide Pow2;
    IntRange();
    assert CutSigned(v, 32) == v;
  }

  /** %d of a small number without flags is its digits. */
  lemma SmallText(v: int)
    requires 0 <= v < 256
    ensures NumText(v, 10, 0, 0, NO_FLAGS.(signed := true)) == Digits(v, 10, false)
  {
    hide Digits;
  }

  /** The last two characters of "%c%d", with the arguments that %c left. */
  lemma LastDirective(str: seq<char>, s: Scanner, v: int, opos: nat, limit: nat)
    requires str == "%c%d" && !s.percent && |s.args| > 0 && s.args[0] == Int(v) && 0 <= v < 256
    ensures Output(str, 2, s, opos, limit).0 == Digits(v, 10, false)
  {
    hide NumText, Digits, SignedValue, ToSigned;
    SmallValue(v);
    SmallText(v);
    var s1 := Scanner(true, NO_FLAGS, 0, 0, s.args);
    assert Step(str, 2, s, opos, limit) == Round(s1, 3, []);
    var round := Step(str, 3, s1, opos, limit);
    assert round.text == Digits(v, 10, false) && round.pos == 4;
    assert Output(str, 3, s1, opos, limit).0 == round.text;
  }

  lemma FirstRound(str: seq<char>, s: Scanner, opos: nat, limit: nat)
    requires str == "%c%d" && !s.percent
    ensures Step(str, 0, s, opos, limit) == Round(Scanner(true, NO_FLAGS, 0, 0, s.args), 1, [])
  {
    hide Directive;
  }

  lemma CharRound(str: seq<char>, s: Scanner, opos: nat, limit: nat)
    requires str == "%c%d" && s.percent
    ensures var r := Step(str, 1, s, opos, limit);
      !r.s.percent && r.pos == 2 && |r.text| == 1 && r.s.args == if opos < limit then Rest(s.args) else s.args
  {
    hide NumText, StrText, SignedValue, UnsignedValue;
  }

  /** %c takes its argument only when its character fits; when it does not, the next directive gets it.  "%c%d" of
      65 and 7 is three characters long in a buffer of one, and two in any longer one. */
  lemma CharTakesArgument(str: seq<char>, args: seq<Arg>, limit: nat)
    requires str == "%c%d" && args == [Int(65), Int(7)]
    ensures |Full(str, args, limit).0| == if limit == 0 then 3 else 2
  {
    hide Step, Digits;
    var s0 := READY.(args := args);
    FirstRound(str, s0, 0, limit);
    var s1 := Scanner(true, NO_FLAGS, 0, 0, args);
    CharRound(str, s1, 0, limit);
    var round := Step(str, 1, s1, 0, limit);
    var v := if limit == 0 then 65 else 7;
    ShortNumbers(v);
    LastDirective(str, round.s, v, 1, limit);
    assert Output(str, 0, s0, 0, limit).0 == [] + Output(str, 1, s1, 0, limit).0;
    assert Output(str, 1, s1, 0, limit).0 == round.text + Output(str, 2, round.s, 1, limit).0;
  }

  lemma ShortNumbers(v: nat)
    requires v == 65 || v == 7
    ensures |Digits(v, 10, false)| == if v == 65 then 2 else 1
  {
  }

  // ---- print, then parse ----

  /** What printf_num prints without flags, width or precision, strtoull reads back. */
  lemma PrintfNumParse(u: nat, radix: nat, capital: bool)
    requires (radix == 10 || radix == 16) && u < UINT64_RANGE
    ensures var s := NumText(ToSigned(u), radix, 0, 0, NO_FLAGS.(capital := capital));
      Scan(s + ['\0'], 0, radix, 0, Invalid) == Parsed(u, Fine, |s|)
  {
    assert Unsigned64(ToSigned(u), NO_FLAGS.(capital := capital)) == u;
    hide Digits, Scan;
    PrintParse(u, radix, capital);
    assert NumText(ToSigned(u), radix, 0, 0, NO_FLAGS.(capital := capital)) == Digits(u, radix, capital);
  }

  /** What it prints of a long long, strtoll reads back. */
  lemma PrintfNumParseSigned(v: int)
    requires -LONG_LONG_MAX - 1 <= v <= LONG_LONG_MAX
    ensures var s := NumText(v, 10, 0, 0, NO_FLAGS.(signed := true)); StrToLL(s + ['\0'], 10) == Parsed(v, Fine, |s|)
  {
    hide Digits, StrToLL;
    PrintParseSigned(v);
    assert NumText(v, 10, 0, 0, NO_FLAGS.(signed := true)) == Signed(v);
  }
}
