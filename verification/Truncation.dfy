/** What a short buffer changes: vsnprintf against the formatting in which every character fits. */
module Truncation {
  import opened Numerals
  import opened Formatter

  /** One round when there is room. */
  function Round1(str: seq<char>, pos: nat, s: Scanner): (r: Round)
    requires pos < |str|
    ensures pos < r.pos <= |str|
  {
    Step(str, pos, s, 0, 1)
  }

  /** The whole output from pos on when everything fits, and the last scanner state. */
  function Unbounded(str: seq<char>, pos: nat, s: Scanner): (r: (seq<char>, Scanner))
    requires pos <= |str|
    decreases |str| - pos
  {
    if pos == |str| then ([], s)
    else
      var round := Round1(str, pos, s);
      var rest := Unbounded(str, round.pos, round.s);
      (round.text + rest.0, rest.1)
  }

  function All(str: seq<char>, args: seq<Arg>): (seq<char>, Scanner) {
    Unbounded(str, 0, READY.(args := args))
  }

  /** A %c comes next. */
  predicate IsChar(str: seq<char>, pos: nat, s: Scanner)
    requires pos < |str|
  {
    s.percent && str[pos] == 'c'
  }

  /** A * of the field width comes next. */
  predicate IsStar(str: seq<char>, pos: nat, s: Scanner)
    requires pos < |str|
  {
    s.percent && str[pos] == '*' && s.width == 0 && !s.f.hasPrecision
  }

  predicate IsDotStar(str: seq<char>, pos: nat, s: Scanner)
    requires pos < |str|
  {
    s.percent && str[pos] == '.' && pos + 1 < |str| && str[pos + 1] == '*'
  }

  /** What comes next takes an argument, and puts it in the text. */
  predicate Shows(str: seq<char>, pos: nat, s: Scanner)
    requires pos < |str|
  {
    IsStar(str, pos, s) || IsDotStar(str, pos, s) || (s.percent && str[pos] in {'d', 'i', 'X', 'x', 'o', 'u', 'p', 's'})
  }

  predicate Takes(str: seq<char>, pos: nat, s: Scanner)
    requires pos < |str|
  {
    Shows(str, pos, s) || (s.percent && str[pos] in {'c', 'n'})
  }

  // ---- conditions on a format ----

  /** Every %c of the unbounded formatting comes at a position below limit. */
  predicate CharsFit(str: seq<char>, pos: nat, s: Scanner, opos: nat, limit: nat)
    requires pos <= |str|
    decreases |str| - pos
  {
    pos == |str| ||
    (var r := Round1(str, pos, s);
      (IsChar(str, pos, s) ==> opos < limit) && CharsFit(str, r.pos, r.s, opos + |r.text|, limit))
  }

  /** Nothing from here on shows an argument in the text, %c apart. */
  predicate Quiet(str: seq<char>, pos: nat, s: Scanner)
    requires pos <= |str|
    decreases |str| - pos
  {
    pos == |str| || (!Shows(str, pos, s) && var r := Round1(str, pos, s); Quiet(str, r.pos, r.s))
  }

  /** Every %c fits, or nothing shows an argument after the first that does not. */
  predicate Harmless(str: seq<char>, pos: nat, s: Scanner, opos: nat, limit: nat)
    requires pos <= |str|
    decreases |str| - pos
  {
    pos == |str| ||
    if IsChar(str, pos, s) && limit <= opos then Quiet(str, pos, s)
    else var r := Round1(str, pos, s); Harmless(str, r.pos, r.s, opos + |r.text|, limit)
  }

  // ---- one round ----

  /** Only %c looks at the room there is. */
  lemma RoomSeen(str: seq<char>, pos: nat, s: Scanner, opos: nat, limit: nat)
    requires pos < |str| && (IsChar(str, pos, s) ==> opos < limit)
    ensures Step(str, pos, s, opos, limit) == Round1(str, pos, s)
  {
    hide NumText, StrText, SignedValue, UnsignedValue, Cut, Number;
  }

  /** A %c without room prints a character all the same, and leaves its argument. */
  lemma CharMissed(str: seq<char>, pos: nat, s: Scanner, opos: nat, limit: nat)
    requires pos < |str| && IsChar(str, pos, s) && limit <= opos
    ensures var r, u := Step(str, pos, s, opos, limit), Round1(str, pos, s);
      r.pos == u.pos && |r.text| == |u.text| == 1 && r.s == s.(percent := false)
        && u.s == r.s.(args := Formatter.Rest(s.args))
  {
    hide NumText, StrText, SignedValue, UnsignedValue, Cut, Number;
  }

  // ---- truncation ----

  lemma {:induction false} FitIsHarmless(str: seq<char>, pos: nat, s: Scanner, opos: nat, limit: nat)
    requires pos <= |str| && CharsFit(str, pos, s, opos, limit)
    ensures Harmless(str, pos, s, opos, limit)
    decreases |str| - pos
  {
    hide Step;
    if pos < |str| {
      var r := Round1(str, pos, s);
      FitIsHarmless(str, r.pos, r.s, opos + |r.text|, limit);
    }
  }

  /** A format without the letter c is harmless in any buffer. */
  lemma {:induction false} NoCharFits(str: seq<char>, pos: nat, s: Scanner, opos: nat, limit: nat)
    requires pos <= |str| && 'c' !in str
    ensures CharsFit(str, pos, s, opos, limit)
    decreases |str| - pos
  {
    hide Step;
    if pos < |str| {
      var r := Round1(str, pos, s);
      NoCharFits(str, r.pos, r.s, opos + |r.text|, limit);
    }
  }

  /** Two scanners that differ in their arguments only go through a quiet stretch alike. */
  lemma QuietRound(str: seq<char>, pos: nat, s: Scanner, args: seq<Arg>, opos: nat, limit: nat)
    requires pos < |str| && !Shows(str, pos, s) && limit <= opos
    ensures var r, u := Step(str, pos, s.(args := args), opos, limit), Round1(str, pos, s);
      r.pos == u.pos && |r.text| == |u.text| && r.s == u.s.(args := r.s.args)
  {
    hide NumText, StrText, SignedValue, UnsignedValue, Cut, Number;
  }

  lemma {:induction false} QuietLength(str: seq<char>, pos: nat, s: Scanner, args: seq<Arg>, opos: nat, limit: nat)
    requires pos <= |str| && Quiet(str, pos, s) && limit <= opos
    ensures |Output(str, pos, s.(args := args), opos, limit).0| == |Unbounded(str, pos, s).0|
    decreases |str| - pos
  {
    if pos < |str| {
      QuietRound(str, pos, s, args, opos, limit);
      hide Step, Shows;
      var r, u := Step(str, pos, s.(args := args), opos, limit), Round1(str, pos, s);
      QuietLength(str, u.pos, u.s, r.s.args, opos + |r.text|, limit);
    }
  }

  /** text and full have one length, and agree wherever a character lands below limit. */
  ghost predicate Agree(text: seq<char>, full: seq<char>, opos: nat, limit: nat) {
    |text| == |full| && forall i {:trigger text[i]} :: 0 <= i < |text| && opos + i < limit ==> text[i] == full[i]
  }

  lemma {:induction false} HarmlessAgrees(str: seq<char>, pos: nat, s: Scanner, opos: nat, limit: nat)
    requires pos <= |str| && Harmless(str, pos, s, opos, limit)
    ensures Agree(Output(str, pos, s, opos, limit).0, Unbounded(str, pos, s).0, opos, limit)
    decreases |str| - pos
  {
    if pos < |str| {
      if IsChar(str, pos, s) && limit <= opos {
        hide Step, Shows;
        QuietLength(str, pos, s, s.args, opos, limit);
      } else {
        RoomSeen(str, pos, s, opos, limit);
        hide Step, Shows;
        var r := Round1(str, pos, s);
        HarmlessAgrees(str, r.pos, r.s, opos + |r.text|, limit);
        AgreeAfter(r.text, Output(str, r.pos, r.s, opos + |r.text|, limit).0, Unbounded(str, r.pos, r.s).0, opos,
          limit);
      }
    }
  }

  lemma AgreeAfter(first: seq<char>, text: seq<char>, full: seq<char>, opos: nat, limit: nat)
    requires Agree(text, full, opos + |first|, limit)
    ensures Agree(first + text, first + full, opos, limit)
  {
  }

  lemma AgreePut(buf: seq<char>, text: seq<char>, full: seq<char>, limit: nat)
    requires Agree(text, full, 0, limit) && limit <= |buf|
    ensures Put(buf, 0, limit, text) == Put(buf, 0, limit, full)
  {
    var olen := if |text| <= limit then |text| else limit;
    assert text[..olen] == full[..olen];
  }

  /** When every %c fits, or nothing shows an argument after the first that does not, the length returned is that of
      the formatting in full, and so is every character that fits in the buffer. */
  lemma TruncationRefines(str: seq<char>, args: seq<Arg>, limit: nat, buf: seq<char>)
    requires Harmless(str, 0, READY.(args := args), 0, limit) && limit <= |buf|
    ensures |Full(str, args, limit).0| == |All(str, args).0|
    ensures forall i {:trigger Full(str, args, limit).0[i]} :: 0 <= i < |All(str, args).0| && i < limit ==>
      Full(str, args, limit).0[i] == All(str, args).0[i]
    ensures Put(buf, 0, limit, Full(str, args, limit).0) == Put(buf, 0, limit, All(str, args).0)
  {
    HarmlessAgrees(str, 0, READY.(args := args), 0, limit);
    hide Output, Unbounded, Harmless, Put;
    AgreePut(buf, Full(str, args, limit).0, All(str, args).0, limit);
  }

  /** As for any format without the letter c. */
  lemma NoCharRefines(str: seq<char>, args: seq<Arg>, limit: nat, buf: seq<char>)
    requires 'c' !in str && limit <= |buf|
    ensures Put(buf, 0, limit, Full(str, args, limit).0) == Put(buf, 0, limit, All(str, args).0)
    ensures |Full(str, args, limit).0| == |All(str, args).0|
  {
    NoCharFits(str, 0, READY.(args := args), 0, limit);
    FitIsHarmless(str, 0, READY.(args := args), 0, limit);
    TruncationRefines(str, args, limit, buf);
  }

  // ---- the arguments that are left ----

  /** Arguments the unbounded formatting takes. */
  function Wanted(str: seq<char>, pos: nat, s: Scanner): nat
    requires pos <= |str|
    decreases |str| - pos
  {
    if pos == |str| then 0
    else
      var r := Round1(str, pos, s);
      (if Takes(str, pos, s) then 1 else 0) + Wanted(str, r.pos, r.s)
  }

  /** Arguments taken when limit characters fit, and those that a %c without room leaves. */
  function Taken(str: seq<char>, pos: nat, s: Scanner, opos: nat, limit: nat): (r: (nat, nat))
    requires pos <= |str|
    decreases |str| - pos
  {
    if pos == |str| then (0, 0)
    else
      var r := Step(str, pos, s, opos, limit);
      var rest := Taken(str, r.pos, r.s, opos + |r.text|, limit);
      if IsChar(str, pos, s) && limit <= opos then (rest.0, rest.1 + 1)
      else if Takes(str, pos, s) then (rest.0 + 1, rest.1)
      else rest
  }

  /** Each round takes one argument or none. */
  lemma RoundTakes(str: seq<char>, pos: nat, s: Scanner, opos: nat, limit: nat)
    requires pos < |str|
    ensures Step(str, pos, s, opos, limit).s.args ==
      if Takes(str, pos, s) && !(IsChar(str, pos, s) && limit <= opos) then Formatter.Rest(s.args) else s.args
  {
    hide NumText, StrText, SignedValue, UnsignedValue, Cut, Number;
  }

  lemma {:induction false} LeftBehind(str: seq<char>, pos: nat, s: Scanner, opos: nat, limit: nat)
    requires pos <= |str| && Taken(str, pos, s, opos, limit).0 <= |s.args|
    ensures Output(str, pos, s, opos, limit).1.args == s.args[Taken(str, pos, s, opos, limit).0..]
    decreases |str| - pos
  {
    if pos < |str| {
      RoundTakes(str, pos, s, opos, limit);
      hide Step, Takes;
      var r := Step(str, pos, s, opos, limit);
      LeftBehind(str, r.pos, r.s, opos + |r.text|, limit);
    }
  }

  lemma {:induction false} LeftUnbounded(str: seq<char>, pos: nat, s: Scanner)
    requires pos <= |str| && Wanted(str, pos, s) <= |s.args|
    ensures Unbounded(str, pos, s).1.args == s.args[Wanted(str, pos, s)..]
    decreases |str| - pos
  {
    if pos < |str| {
      RoundTakes(str, pos, s, 0, 1);
      hide Step, Takes;
      var r := Round1(str, pos, s);
      LeftUnbounded(str, r.pos, r.s);
    }
  }

  /** Every %c fits exactly when none leaves its argument. */
  lemma {:induction false} FitIsNoneLeft(str: seq<char>, pos: nat, s: Scanner, opos: nat, limit: nat)
    requires pos <= |str|
    ensures CharsFit(str, pos, s, opos, limit) <==> Taken(str, pos, s, opos, limit).1 == 0
    decreases |str| - pos
  {
    hide Step, Takes, IsChar;
    if pos < |str| && !(IsChar(str, pos, s) && limit <= opos) {
      RoomSeen(str, pos, s, opos, limit);
      var r := Round1(str, pos, s);
      FitIsNoneLeft(str, r.pos, r.s, opos + |r.text|, limit);
    }
  }

  // ---- the two scanners keep step ----

  /** No directive has a second * for its width: between two stars that no dot precedes comes a percent sign. */
  ghost predicate Steady(str: seq<char>) {
    forall i, j {:trigger str[i], str[j]} ::
      0 <= i < j < |str| && str[i] == '*' && str[j] == '*' && str[j - 1] != '.' ==>
      exists k :: i < k < j && str[k] == '%'
  }

  /** The width of the directive at hand came from the star at star. */
  ghost predicate Starred(str: seq<char>, pos: nat, s: Scanner, star: nat) {
    && star < pos <= |str| && str[star] == '*'
    && forall k {:trigger str[k]} :: star < k < pos ==> str[k] != '%' && (s.f.hasPrecision || str[k] != '.')
  }

  /** Scanners that tell the same directives apart; their arguments may differ, and a width that a star gave. */
  ghost predicate Alike(str: seq<char>, pos: nat, s: Scanner, t: Scanner, star: nat) {
    && s.percent == t.percent
    && (s.percent ==> s.f.hasPrecision == t.f.hasPrecision && (s.width == t.width || Starred(str, pos, s, star)))
  }

  lemma {:induction false} NumberEnds(str: seq<char>, pos: nat, a: nat, b: nat)
    requires pos <= |str|
    ensures Number(str, pos, a).1 == Number(str, pos, b).1
    ensures forall k :: pos <= k < Number(str, pos, a).1 ==> '0' <= str[k] <= '9'
    decreases |str| - pos
  {
    if IsDigit(str, pos) {
      var d := str[pos] as int - '0' as int;
      NumberEnds(str, pos + 1, 10 * a + d, 10 * b + d);
    }
  }

  lemma StarsApart(str: seq<char>, pos: nat, s: Scanner, star: nat)
    requires Steady(str) && pos < |str| && Starred(str, pos, s, star) && !s.f.hasPrecision
    ensures str[pos] != '*'
  {
    assert pos - 1 == star || str[pos - 1] != '.';
  }

  /** A character that leaves the directive open: a flag, a digit of the width, a star for it, or a dot. */
  predicate IsOpenFlag(str: seq<char>, pos: nat, s: Scanner)
    requires pos < |str|
  {
    IsFlag(str[pos]) && (str[pos] != '0' || !s.f.hasPrecision)
  }

  predicate IsWidth(str: seq<char>, pos: nat, s: Scanner)
    requires pos < |str|
  {
    !IsOpenFlag(str, pos, s) && '0' <= str[pos] <= '9' && !s.f.hasPrecision
  }

  /** What a round does to the parts of the scanner that tell directives apart: outside a directive, */
  lemma PlainShape(str: seq<char>, pos: nat, s: Scanner, opos: nat, limit: nat)
    requires pos < |str| && !s.percent
    ensures var r, c := Step(str, pos, s, opos, limit), str[pos];
      r.pos == pos + 1 && r.s.percent == (c == '%') && (c == '%' ==> !r.s.f.hasPrecision && r.s.width == 0)
  {
    hide Directive;
  }

  /** at a flag, */
  lemma FlagShape(str: seq<char>, pos: nat, s: Scanner, opos: nat, limit: nat)
    requires pos < |str| && s.percent && IsOpenFlag(str, pos, s)
    ensures var r := Step(str, pos, s, opos, limit);
      r.pos == pos + 1 && r.s.percent && r.s.f.hasPrecision == s.f.hasPrecision && r.s.width == s.width
  {
    hide NumText, StrText, SignedValue, UnsignedValue, Cut, Number;
  }

  /** at the field width, */
  lemma WidthShape(str: seq<char>, pos: nat, s: Scanner, opos: nat, limit: nat)
    requires pos < |str| && s.percent && (IsWidth(str, pos, s) || IsStar(str, pos, s))
    ensures var r := Step(str, pos, s, opos, limit); r.s.percent && !r.s.f.hasPrecision
    ensures var r := Step(str, pos, s, opos, limit);
      if IsStar(str, pos, s) then r.pos == pos + 1
      else (r.s.width, r.pos) == Number(str, pos, if s.width < 0 then 0 else s.width)
  {
    hide NumText, StrText, SignedValue, UnsignedValue, Cut, Number, WithFlag;
  }

  /** at the precision, */
  lemma DotShape(str: seq<char>, pos: nat, s: Scanner, opos: nat, limit: nat)
    requires pos < |str| && s.percent && str[pos] == '.'
    ensures var r := Step(str, pos, s, opos, limit);
      && r.s.percent && r.s.f.hasPrecision && r.s.width == s.width
      && r.pos == if IsDotStar(str, pos, s) then pos + 2
         else Number(str, pos + 1, if s.precision < 0 then 0 else s.precision).1
  {
    hide NumText, StrText, SignedValue, UnsignedValue, Cut, Number, WithFlag;
  }

  /** at anything else in a directive, which ends it. */
  lemma EndShape(str: seq<char>, pos: nat, s: Scanner, opos: nat, limit: nat)
    requires pos < |str| && s.percent && str[pos] != '.'
    requires !IsOpenFlag(str, pos, s) && !IsWidth(str, pos, s) && !IsStar(str, pos, s)
    ensures var r := Step(str, pos, s, opos, limit); r.pos == pos + 1 && !r.s.percent
  {
    hide NumText, StrText, SignedValue, UnsignedValue, Cut, Number, WithFlag;
  }

  /** A star that a directive's width came from stays its star as long as neither a percent sign nor, before the
      precision, a dot comes. */
  lemma StillStarred(str: seq<char>, pos: nat, s: Scanner, star: nat, pos': nat, s': Scanner)
    requires Starred(str, pos, s, star) && pos <= pos' <= |str| && (s.f.hasPrecision ==> s'.f.hasPrecision)
    requires forall k {:trigger str[k]} :: pos <= k < pos' ==> str[k] != '%' && (s'.f.hasPrecision || str[k] != '.')
    ensures Starred(str, pos', s', star)
  {
  }

  /** A round of each: they end at the same place, take an argument or none alike, and stay alike. */
  lemma RoundAlike(str: seq<char>, pos: nat, s: Scanner, t: Scanner, star: nat, opos: nat, limit: nat)
    returns (star': nat)
    requires Steady(str) && pos < |str| && Alike(str, pos, s, t, star)
    ensures IsChar(str, pos, s) <==> IsChar(str, pos, t)
    ensures Takes(str, pos, s) <==> Takes(str, pos, t)
    ensures var u, r := Round1(str, pos, s), Step(str, pos, t, opos, limit);
      u.pos == r.pos && Alike(str, u.pos, u.s, r.s, star')
  {
    hide Step, Number, Steady, Starred;
    star' := star;
    var u, c := Round1(str, pos, s), str[pos];
    if !s.percent {
      PlainShape(str, pos, s, 0, 1);
      PlainShape(str, pos, t, opos, limit);
      return;
    }
    if Starred(str, pos, s, star) && !s.f.hasPrecision { StarsApart(str, pos, s, star); }
    if c == '.' {
      DotShape(str, pos, s, 0, 1);
      DotShape(str, pos, t, opos, limit);
      NumberEnds(str, pos + 1, if s.precision < 0 then 0 else s.precision, if t.precision < 0 then 0 else t.precision);
    } else if IsOpenFlag(str, pos, s) {
      FlagShape(str, pos, s, 0, 1);
      FlagShape(str, pos, t, opos, limit);
    } else if IsWidth(str, pos, s) {
      WidthShape(str, pos, s, 0, 1);
      WidthShape(str, pos, t, opos, limit);
      NumberEnds(str, pos, if s.width < 0 then 0 else s.width, if t.width < 0 then 0 else t.width);
    } else if IsStar(str, pos, s) {
      WidthShape(str, pos, s, 0, 1);
      WidthShape(str, pos, t, opos, limit);
      star' := pos;
      StarHere(str, pos, u.s);
      return;
    } else {
      EndShape(str, pos, s, 0, 1);
      EndShape(str, pos, t, opos, limit);
    }
    if u.s.percent && Starred(str, pos, s, star) { StillStarred(str, pos, s, star, u.pos, u.s); }
  }

  lemma StarHere(str: seq<char>, pos: nat, s: Scanner)
    requires pos < |str| && str[pos] == '*'
    ensures Starred(str, pos + 1, s, pos)
  {
  }

  /** What one wants, the other takes or leaves at a %c. */
  lemma {:induction false} TakenOrLeft(str: seq<char>, pos: nat, s: Scanner, t: Scanner, star: nat, opos: nat,
                                       limit: nat)
    requires Steady(str) && pos <= |str| && Alike(str, pos, s, t, star)
    ensures var r := Taken(str, pos, t, opos, limit); Wanted(str, pos, s) == r.0 + r.1
    decreases |str| - pos
  {
    if pos < |str| {
      var star' := RoundAlike(str, pos, s, t, star, opos, limit);
      hide Step, Alike;
      var u, r := Round1(str, pos, s), Step(str, pos, t, opos, limit);
      TakenOrLeft(str, u.pos, u.s, r.s, star', opos + |r.text|, limit);
    }
  }

  /** With the arguments it asks for, a format leaves those that formatting in full leaves exactly when every %c
      fits. */
  lemma ArgumentsLeft(str: seq<char>, args: seq<Arg>, limit: nat)
    requires Steady(str) && Wanted(str, 0, READY.(args := args)) <= |args|
    ensures Full(str, args, limit).1.args == All(str, args).1.args <==> CharsFit(str, 0, READY.(args := args), 0, limit)
  {
    var s := READY.(args := args);
    TakenOrLeft(str, 0, s, s, 0, 0, limit);
    LeftBehind(str, 0, s, 0, limit);
    LeftUnbounded(str, 0, s);
    FitIsNoneLeft(str, 0, s, 0, limit);
    hide Output, Unbounded, Taken, Wanted, CharsFit, Steady;
    var n, m := Taken(str, 0, s, 0, limit).0, Wanted(str, 0, s);
    assert |args[n..]| == |args| - n && |args[m..]| == |args| - m;
  }

  /** Without steadiness it is not so: in "%c%**%" of 0 and 5 the 0 that %c leaves lets both stars take an argument,
      and none is left either way. */
  lemma StarsTakeOver(str: seq<char>, args: seq<Arg>)
    requires str == "%c%**%" && args == [Int(0), Int(5)]
    ensures Full(str, args, 0).1.args == All(str, args).1.args == []
    ensures !CharsFit(str, 0, READY.(args := args), 0, 0) && Wanted(str, 0, READY.(args := args)) == 2
  {
    hide Number, NumText, StrText, SignedValue, UnsignedValue, Cut, WithFlag;
    var s := READY.(args := args);
    var d := Scanner(true, NO_FLAGS, 0, 0, args);
    OpenAt(str, 0, s, 0, 0);
    OpenAt(str, 0, s, 0, 1);
    ShortRun(str, d, args);
    LongRun(str, d, args);
  }

  lemma OpenAt(str: seq<char>, pos: nat, s: Scanner, opos: nat, limit: nat)
    requires pos < |str| && str[pos] == '%' && !s.percent
    ensures Step(str, pos, s, opos, limit) == Round(Scanner(true, NO_FLAGS, 0, 0, s.args), pos + 1, [])
  {
    hide Directive;
  }

  lemma StarAt(str: seq<char>, pos: nat, s: Scanner, v: nat, opos: nat, limit: nat)
    requires pos < |str| && str[pos] == '*' && s.percent && s.width == 0 && s.f == NO_FLAGS && |s.args| > 0
      && s.args[0] == Int(v)
    ensures Step(str, pos, s, opos, limit) == Round(s.(args := s.args[1..], width := v), pos + 1, [])
  {
    hide Number, NumText, StrText, SignedValue, UnsignedValue, Cut, WithFlag;
  }

  lemma LiteralAt(str: seq<char>, pos: nat, s: Scanner, opos: nat, limit: nat)
    requires pos < |str| && s.percent && (str[pos] == '%' || (str[pos] == '*' && s.width > 0))
    ensures Step(str, pos, s, opos, limit) == Round(s.(percent := false), pos + 1, [str[pos]])
  {
    hide Number, NumText, StrText, SignedValue, UnsignedValue, Cut, WithFlag;
  }

  lemma ShortRun(str: seq<char>, d: Scanner, args: seq<Arg>)
    requires str == "%c%**%" && args == [Int(0), Int(5)] && d == Scanner(true, NO_FLAGS, 0, 0, args)
    ensures Output(str, 1, d, 0, 0).1.args == []
  {
    CharMissed(str, 1, d, 0, 0);
    var e := d.(percent := false);
    OpenAt(str, 2, e, 1, 0);
    StarAt(str, 3, d, 0, 1, 0);
    var f := d.(args := args[1..]);
    StarAt(str, 4, f, 5, 1, 0);
    var g := f.(args := f.args[1..], width := 5);
    LiteralAt(str, 5, g, 1, 0);
    hide Step;
    assert Output(str, 6, g.(percent := false), 2, 0).1.args == [];
    assert Output(str, 4, f, 1, 0).1.args == Output(str, 5, g, 1, 0).1.args == [];
    assert Output(str, 2, e, 1, 0).1.args == Output(str, 3, d, 1, 0).1.args == [];
  }

  lemma OneOn(str: seq<char>, pos: nat, s: Scanner, s': Scanner, n: nat)
    requires pos < |str| && Round1(str, pos, s).pos == pos + 1 && Round1(str, pos, s).s == s'
    requires n == if Takes(str, pos, s) then 1 else 0
    ensures Unbounded(str, pos, s).1 == Unbounded(str, pos + 1, s').1
    ensures Wanted(str, pos, s) == n + Wanted(str, pos + 1, s')
  {
    hide Step, Takes;
  }

  lemma LongRun(str: seq<char>, d: Scanner, args: seq<Arg>)
    requires str == "%c%**%" && args == [Int(0), Int(5)] && d == Scanner(true, NO_FLAGS, 0, 0, args)
    ensures Unbounded(str, 1, d).1.args == [] && Wanted(str, 1, d) == 2
  {
    CharMissed(str, 1, d, 0, 0);
    var e := d.(percent := false, args := args[1..]);
    OpenAt(str, 2, e, 0, 1);
    var f := d.(args := args[1..]);
    StarAt(str, 3, f, 5, 0, 1);
    var g := f.(args := f.args[1..], width := 5);
    LiteralAt(str, 4, g, 0, 1);
    var h := g.(percent := false);
    OpenAt(str, 5, h, 0, 1);
    var last := Scanner(true, NO_FLAGS, 0, 0, h.args);
    assert h.args == [];
    hide Step;
    OneOn(str, 5, h, last, 0);
    OneOn(str, 4, g, h, 0);
    OneOn(str, 3, f, g, 1);
    OneOn(str, 2, e, f, 0);
  }
}
