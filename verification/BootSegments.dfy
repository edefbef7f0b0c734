/** The boot-time list of free memory segments: at most 64, each with an inclusive end. */
module BootSegments {
  import opened ChunkLayout
  import opened BinMaps
  import opened BinIndex
  import opened Alignments

  const NUM_SEGMENTS := 64

  datatype Span = Span(start: int, end: int)

  ghost predicate SpanOk(s: Span) { 0 <= s.start <= s.end < SIZE_T_RANGE }

  ghost predicate Holds(s: Span, x: int) { s.start <= x <= s.end }

  ghost predicate AllOk(l: seq<Span>) {
    forall i {:trigger l[i]} :: 0 <= i < |l| ==> SpanOk(l[i])
  }

  ghost predicate Disjoint(l: seq<Span>) {
    forall i, j {:trigger l[i], l[j]} :: 0 <= i < j < |l| ==> l[i].end < l[j].start || l[j].end < l[i].start
  }

  ghost predicate Covers(l: seq<Span>, x: int) {
    exists i :: 0 <= i < |l| && Holds(l[i], x)
  }

  /** s has bytes of [a, b], and has no others. */
  predicate Meets(s: Span, a: int, b: int) { a <= s.end && s.start <= b }

  predicate Inside(s: Span, a: int, b: int) { a <= s.start && s.end <= b }

  predicate Splits(s: Span, a: int, b: int) { s.start < a && b < s.end }

  /** No segment has a byte of [a, b]. */
  ghost predicate Clear(l: seq<Span>, a: int, b: int) {
    forall i {:trigger l[i]} :: 0 <= i < |l| ==> !Meets(l[i], a, b)
  }

  /** What malloc_exclude_segment does to entry i of the list: the last one takes the place of one inside [a, b]. */
  function Round(l: seq<Span>, a: int, b: int, i: nat): (r: seq<Span>)
    requires i < |l|
    ensures |l| <= NUM_SEGMENTS ==> |r| <= NUM_SEGMENTS
  {
    var s := l[i];
    if a > s.end || b < s.start then l
    else if a > s.start then
      (if s.end > b && |l| < NUM_SEGMENTS then l + [Span(b + 1, s.end)] else l)[i := Span(s.start, a - 1)]
    else if b < s.end then l[i := Span(b + 1, s.end)]
    else l[i := l[|l| - 1]][..|l| - 1]
  }

  /** malloc_exclude_segment from entry i on. */
  function Walk(l: seq<Span>, a: int, b: int, i: nat): (r: seq<Span>)
    requires |l| <= NUM_SEGMENTS
    ensures |r| <= NUM_SEGMENTS
    decreases NUM_SEGMENTS - i
  {
    if i >= |l| then l else Walk(Round(l, a, b, i), a, b, i + 1)
  }

  class SegmentList {
    const segments: array<Span>
    var nextseg: nat

    constructor ()
      ensures Valid() && List() == [] && fresh(segments)
    {
      segments := new Span[NUM_SEGMENTS](i => Span(0, 0));
      nextseg := 0;
    }

    ghost predicate Valid()
      reads this
    {
      segments.Length == NUM_SEGMENTS && nextseg <= NUM_SEGMENTS
    }

    ghost function List(): seq<Span>
      requires Valid()
      reads this, segments
    {
      segments[..nextseg]
    }

    /** malloc_add_segment: a segment that finds no room is dropped. */
    method AddSegment(start: int, end: int)
      requires Valid()
      modifies this, segments
      ensures Valid() && List() == if |old(List())| < NUM_SEGMENTS then old(List()) + [Span(start, end)]
        else old(List())
    {
      if nextseg < NUM_SEGMENTS {
        segments[nextseg] := Span(start, end);
        nextseg := nextseg + 1;
      }
    }

    /** malloc_exclude_segment. */
    method ExcludeSegment(start: int, end: int)
      requires Valid()
      modifies this, segments
      ensures Valid() && List() == Walk(old(List()), start, end, 0)
    {
      hide Walk;
      var i := 0;
      while i < nextseg
        invariant Valid() && 0 <= i && Walk(List(), start, end, i) == Walk(old(List()), start, end, 0)
        decreases NUM_SEGMENTS - i
      {
        ghost var now := List();
        var s := segments[i];
        if start > s.end {
        } else if end < s.start {
        } else if start > s.start {
          if s.end > end { AddSegment(end + 1, s.end); }
          segments[i] := segments[i].(end := start - 1);
        } else if end < s.end {
          segments[i] := s.(start := end + 1);
        } else {
          nextseg := nextseg - 1;
          segments[i] := segments[nextseg];
          assert List() == now[i := now[|now| - 1]][..|now| - 1];
        }
        assert List() == Round(now, start, end, i);
        WalkOn(now, start, end, i);
        i := i + 1;
      }
      WalkDone(List(), start, end, i);
    }
  }

  lemma WalkOn(l: seq<Span>, a: int, b: int, i: nat)
    requires i < |l| <= NUM_SEGMENTS
    ensures Walk(l, a, b, i) == Walk(Round(l, a, b, i), a, b, i + 1)
  {
  }

  lemma WalkDone(l: seq<Span>, a: int, b: int, i: nat)
    requires |l| <= i && |l| <= NUM_SEGMENTS
    ensures Walk(l, a, b, i) == l
  {
  }

  // ---- what is left covered ----

  lemma RoundKeeps(l: seq<Span>, a: int, b: int, i: nat)
    requires AllOk(l) && Disjoint(l) && a <= b && i < |l|
    ensures AllOk(Round(l, a, b, i)) && Disjoint(Round(l, a, b, i))
  {
  }

  /** The list stays one of disjoint segments. */
  lemma {:induction false} WalkKeeps(l: seq<Span>, a: int, b: int, i: nat)
    requires AllOk(l) && Disjoint(l) && a <= b && |l| <= NUM_SEGMENTS
    ensures AllOk(Walk(l, a, b, i)) && Disjoint(Walk(l, a, b, i))
    decreases NUM_SEGMENTS - i
  {
    hide AllOk, Disjoint, Round;
    if i < |l| {
      RoundKeeps(l, a, b, i);
      WalkKeeps(Round(l, a, b, i), a, b, i + 1);
    }
  }

  lemma RoundLess(l: seq<Span>, a: int, b: int, i: nat, x: int)
    requires a <= b && i < |l| && Covers(Round(l, a, b, i), x)
    ensures Covers(l, x)
  {
    var l' := Round(l, a, b, i);
    var j :| 0 <= j < |l'| && Holds(l'[j], x);
    if j == |l| || j == i {
      assert Holds(l[i], x) || Holds(l[|l| - 1], x);
    } else {
      assert Holds(l[j], x);
    }
  }

  /** Nothing is covered that was not. */
  lemma {:induction false} WalkCoversLess(l: seq<Span>, a: int, b: int, i: nat, x: int)
    requires a <= b && |l| <= NUM_SEGMENTS && Covers(Walk(l, a, b, i), x)
    ensures Covers(l, x)
    decreases NUM_SEGMENTS - i
  {
    hide Covers, Round;
    if i < |l| {
      WalkCoversLess(Round(l, a, b, i), a, b, i + 1, x);
      RoundLess(l, a, b, i, x);
    }
  }

  /** There is room for the segment that a split adds. */
  ghost predicate RoomToSplit(l: seq<Span>, a: int, b: int, i: nat) {
    |l| < NUM_SEGMENTS || forall j {:trigger l[j]} :: i <= j < |l| ==> !Splits(l[j], a, b)
  }

  lemma RoundRest(l: seq<Span>, a: int, b: int, i: nat, x: int)
    requires a <= b && i < |l| && RoomToSplit(l, a, b, i) && Covers(l, x) && !(a <= x <= b)
    ensures Covers(Round(l, a, b, i), x)
  {
    var l' := Round(l, a, b, i);
    var j :| 0 <= j < |l| && Holds(l[j], x);
    if j != i {
      assert if j < |l'| then Holds(l'[j], x) else Holds(l'[i], x);
    } else if Splits(l[i], a, b) && b < x {
      assert Holds(l'[|l|], x);
    } else {
      assert Holds(l'[i], x);
    }
  }

  lemma RoundRoom(l: seq<Span>, a: int, b: int, i: nat)
    requires AllOk(l) && Disjoint(l) && a <= b && i < |l| && RoomToSplit(l, a, b, i)
    ensures RoomToSplit(Round(l, a, b, i), a, b, i + 1)
  {
    var l' := Round(l, a, b, i);
    if Splits(l[i], a, b) {
      forall j {:trigger l'[j]} | i < j < |l'| ensures !Splits(l'[j], a, b) {
        if j < |l| { assert l[j].end < l[i].start || l[i].end < l[j].start; }
      }
    }
  }

  /** All else stays covered, if the list has room for the part above of a segment that is split. */
  lemma {:induction false} WalkCoversRest(l: seq<Span>, a: int, b: int, i: nat, x: int)
    requires AllOk(l) && Disjoint(l) && a <= b && |l| <= NUM_SEGMENTS && RoomToSplit(l, a, b, i)
    requires Covers(l, x) && !(a <= x <= b)
    ensures Covers(Walk(l, a, b, i), x)
    decreases NUM_SEGMENTS - i
  {
    hide Covers, Round, AllOk, Disjoint, RoomToSplit;
    if i < |l| {
      RoundKeeps(l, a, b, i);
      RoundRest(l, a, b, i, x);
      RoundRoom(l, a, b, i);
      WalkCoversRest(Round(l, a, b, i), a, b, i + 1, x);
    }
  }

  // ---- whether the range is excluded ----

  /** How many of the segments from i on lie inside [a, b]. */
  function InsideCount(l: seq<Span>, a: int, b: int, i: nat): (n: nat)
    ensures i <= |l| ==> n <= |l| - i
    decreases |l| - i
  {
    if i >= |l| then 0 else (if Inside(l[i], a, b) then 1 else 0) + InsideCount(l, a, b, i + 1)
  }

  /** Of the last q entries, q being how many lie inside [a, b], only the first may have bytes of [a, b], and then
      no others: they take the places of those inside, and are not looked at there. */
  ghost predicate LastClear(l: seq<Span>, a: int, b: int, i: nat) {
    var q := InsideCount(l, a, b, i);
    && (forall k {:trigger l[k]} :: 0 <= |l| - q < k < |l| ==> !Meets(l[k], a, b))
    && (0 < q <= |l| ==> Inside(l[|l| - q], a, b) || !Meets(l[|l| - q], a, b))
  }

  ghost predicate ClearTo(l: seq<Span>, a: int, b: int, i: nat) {
    forall j {:trigger l[j]} :: 0 <= j < i && j < |l| ==> !Meets(l[j], a, b)
  }

  lemma {:induction false} CountSame(l: seq<Span>, l': seq<Span>, a: int, b: int, i: nat, n: nat)
    requires i <= n <= |l| && n <= |l'| && forall k {:trigger l[k]} {:trigger l'[k]} :: i <= k < n ==> l'[k] == l[k]
    ensures InsideCount(l, a, b, i) - InsideCount(l, a, b, n) == InsideCount(l', a, b, i) - InsideCount(l', a, b, n)
    decreases n - i
  {
    if i < n { CountSame(l, l', a, b, i + 1, n); }
  }

  lemma CountLast(l: seq<Span>, a: int, b: int)
    requires |l| > 0
    ensures InsideCount(l, a, b, |l| - 1) == if Inside(l[|l| - 1], a, b) then 1 else 0
    ensures InsideCount(l, a, b, |l|) == 0
  {
  }

  /** A list with a segment that is split has none inside. */
  lemma {:induction false} SplitAlone(l: seq<Span>, a: int, b: int, i: nat, j: nat)
    requires AllOk(l) && Disjoint(l) && a <= b && j < |l| && Splits(l[j], a, b)
    ensures InsideCount(l, a, b, i) == 0
    decreases |l| - i
  {
    if i < |l| {
      SplitAlone(l, a, b, i + 1, j);
      if i != j { assert l[i].end < l[j].start || l[j].end < l[i].start; }
    }
  }

  /** Entry i is cut, or does not meet the range at all. */
  lemma CutOne(l: seq<Span>, s: Span, a: int, b: int, i: nat)
    requires i < |l| && !Inside(l[i], a, b) && !Meets(s, a, b)
    ensures var l' := l[i := s];
      && (ClearTo(l', a, b, i + 1) <==> ClearTo(l, a, b, i))
      && (LastClear(l', a, b, i + 1) <==> LastClear(l, a, b, i))
  {
    var l' := l[i := s];
    CountSame(l, l', a, b, i + 1, |l|);
    hide InsideCount;
    assert InsideCount(l, a, b, i) == InsideCount(l', a, b, i + 1) <= |l| - i - 1 by { OneOutside(l, l', a, b, i); }
    assert forall k {:trigger l[k]} {:trigger l'[k]} :: 0 <= k < |l| && k != i ==> l'[k] == l[k];
  }

  lemma OneOutside(l: seq<Span>, l': seq<Span>, a: int, b: int, i: nat)
    requires i < |l| == |l'| && !Inside(l[i], a, b)
    requires InsideCount(l, a, b, i + 1) - InsideCount(l, a, b, |l|)
      == InsideCount(l', a, b, i + 1) - InsideCount(l', a, b, |l|)
    ensures InsideCount(l, a, b, i) == InsideCount(l', a, b, i + 1)
  {
  }

  /** Entry i is split. */
  lemma CutTwo(l: seq<Span>, s: Span, t: Span, a: int, b: int, i: nat)
    requires AllOk(l) && Disjoint(l) && a <= b && i < |l| && Splits(l[i], a, b)
    requires !Meets(s, a, b) && !Meets(t, a, b) && b < t.end
    ensures var l' := l[i := s] + [t];
      && (ClearTo(l', a, b, i + 1) <==> ClearTo(l, a, b, i))
      && (LastClear(l', a, b, i + 1) <==> LastClear(l, a, b, i))
  {
    var l' := l[i := s] + [t];
    SplitAlone(l, a, b, i, i);
    SplitAlone(l, a, b, i + 1, i);
    CountSame(l, l', a, b, i + 1, |l|);
    CountLast(l', a, b);
    hide InsideCount, Disjoint, AllOk;
    assert InsideCount(l, a, b, |l|) == 0 by { CountLast(l, a, b); }
    assert InsideCount(l, a, b, i) == InsideCount(l', a, b, i + 1) == 0;
    assert forall k {:trigger l[k]} {:trigger l'[k]} :: 0 <= k < i ==> l'[k] == l[k];
  }

  /** A segment that is not inside is cut and done with. */
  lemma CutRound(l: seq<Span>, a: int, b: int, i: nat)
    requires AllOk(l) && Disjoint(l) && a <= b && i < |l| <= NUM_SEGMENTS && !Inside(l[i], a, b)
    ensures var l' := Round(l, a, b, i);
      && (ClearTo(l', a, b, i + 1) <==> ClearTo(l, a, b, i))
      && (LastClear(l', a, b, i + 1) <==> LastClear(l, a, b, i))
  {
    hide ClearTo, LastClear, Disjoint;
    var s := l[i];
    if a > s.end || b < s.start {
      assert l[i := s] == l;
      CutOne(l, s, a, b, i);
    } else if a > s.start {
      var low := Span(s.start, a - 1);
      if s.end > b && |l| < NUM_SEGMENTS {
        assert (l + [Span(b + 1, s.end)])[i := low] == l[i := low] + [Span(b + 1, s.end)];
        CutTwo(l, low, Span(b + 1, s.end), a, b, i);
      } else {
        CutOne(l, low, a, b, i);
      }
    } else {
      CutOne(l, Span(b + 1, s.end), a, b, i);
    }
  }

  /** The last entry takes the place of one inside. */
  lemma DropRound(l: seq<Span>, a: int, b: int, i: nat)
    requires AllOk(l) && a <= b && i < |l| <= NUM_SEGMENTS && Inside(l[i], a, b)
    ensures var l' := Round(l, a, b, i);
      ClearTo(l', a, b, i + 1) && LastClear(l', a, b, i + 1) <==> ClearTo(l, a, b, i) && LastClear(l, a, b, i)
  {
    assert SpanOk(l[i]);
    var n := |l| - 1;
    if i < n {
      DropOne(l, a, b, i);
    } else {
      CountLast(l, a, b);
      assert Round(l, a, b, i) == l[..n];
    }
  }

  lemma DropOne(l: seq<Span>, a: int, b: int, i: nat)
    requires AllOk(l) && a <= b && i < |l| - 1 && Inside(l[i], a, b)
    ensures var l' := l[i := l[|l| - 1]][..|l| - 1];
      ClearTo(l', a, b, i + 1) && LastClear(l', a, b, i + 1) <==> ClearTo(l, a, b, i) && LastClear(l, a, b, i)
  {
    var n := |l| - 1;
    var l' := l[i := l[n]][..n];
    assert SpanOk(l[n]);
    DropCount(l, l', a, b, i);
    hide InsideCount, LastClear, ClearTo, AllOk;
    if Meets(l[n], a, b) { DropMissed(l, l', a, b, i); } else { DropFine(l, l', a, b, i); }
  }

  lemma DropCount(l: seq<Span>, l': seq<Span>, a: int, b: int, i: nat)
    requires i < |l| - 1 == |l'| && Inside(l[i], a, b)
    requires forall k {:trigger l[k]} {:trigger l'[k]} :: 0 <= k < |l'| && k != i ==> l'[k] == l[k]
    ensures InsideCount(l, a, b, i) == 1 + InsideCount(l', a, b, i + 1) + (if Inside(l[|l| - 1], a, b) then 1 else 0)
  {
    var n := |l| - 1;
    CountLast(l, a, b);
    CountSame(l, l', a, b, i + 1, n);
    assert InsideCount(l', a, b, n) == 0;
  }

  lemma DropMissed(l: seq<Span>, l': seq<Span>, a: int, b: int, i: nat)
    requires i < |l| - 1 == |l'| && l'[i] == l[|l| - 1] && Meets(l[|l| - 1], a, b)
    requires InsideCount(l, a, b, i) >= 1 + (if Inside(l[|l| - 1], a, b) then 1 else 0)
    ensures !ClearTo(l', a, b, i + 1) && !LastClear(l, a, b, i)
  {
    hide InsideCount;
    assert Meets(l'[i], a, b);
    assert |l| - InsideCount(l, a, b, i) < |l|;
  }

  lemma DropFine(l: seq<Span>, l': seq<Span>, a: int, b: int, i: nat)
    requires i < |l| - 1 == |l'| && l'[i] == l[|l| - 1] && !Meets(l[|l| - 1], a, b)
    requires forall k {:trigger l[k]} {:trigger l'[k]} :: 0 <= k < |l'| && k != i ==> l'[k] == l[k]
    requires InsideCount(l, a, b, i) == 1 + InsideCount(l', a, b, i + 1) + (if Inside(l[|l| - 1], a, b) then 1 else 0)
    ensures ClearTo(l', a, b, i + 1) <==> ClearTo(l, a, b, i)
    ensures !Inside(l[|l| - 1], a, b) ==> (LastClear(l', a, b, i + 1) <==> LastClear(l, a, b, i))
  {
    var q := InsideCount(l', a, b, i + 1);
    assert q <= |l'| - i - 1;
    hide InsideCount;
  }

  lemma {:induction false} WalkClearsFrom(l: seq<Span>, a: int, b: int, i: nat)
    requires AllOk(l) && Disjoint(l) && a <= b && |l| <= NUM_SEGMENTS
    ensures Clear(Walk(l, a, b, i), a, b) <==> ClearTo(l, a, b, i) && LastClear(l, a, b, i)
    decreases NUM_SEGMENTS - i
  {
    hide AllOk, Disjoint, Round, InsideCount;
    if i < |l| {
      RoundKeeps(l, a, b, i);
      WalkClearsFrom(Round(l, a, b, i), a, b, i + 1);
      hide LastClear, ClearTo, Clear;
      if Inside(l[i], a, b) { DropRound(l, a, b, i); } else { CutRound(l, a, b, i); }
    }
  }

  lemma ClearMeans(l: seq<Span>, a: int, b: int)
    requires AllOk(l) && a <= b
    ensures (forall x :: a <= x <= b ==> !Covers(l, x)) <==> Clear(l, a, b)
  {
    if !Clear(l, a, b) {
      var j :| 0 <= j < |l| && Meets(l[j], a, b);
      var x := if l[j].start < a then a else l[j].start;
      assert Holds(l[j], x);
      assert Covers(l, x);
    }
  }

  /** Nothing of [a, b] is left if and only if no segment that has bytes of it is among the last q, q being how many
      lie inside it; but for the first of those q, which may lie inside. */
  lemma WalkClears(l: seq<Span>, a: int, b: int)
    requires AllOk(l) && Disjoint(l) && a <= b && |l| <= NUM_SEGMENTS
    ensures (forall x :: a <= x <= b ==> !Covers(Walk(l, a, b, 0), x)) <==> LastClear(l, a, b, 0)
  {
    hide LastClear, Walk, Disjoint, AllOk, Clear;
    WalkClearsFrom(l, a, b, 0);
    WalkKeeps(l, a, b, 0);
    ClearMeans(Walk(l, a, b, 0), a, b);
  }

  /** Two neighbours inside the range, the second the last of the list: it takes the first one's place. */
  lemma InsideSkipped()
    ensures Walk([Span(10, 19), Span(20, 29)], 10, 29, 0) == [Span(20, 29)]
  {
    assert Round([Span(10, 19), Span(20, 29)], 10, 29, 0) == [Span(20, 29)];
  }

  // ---- malloc_alloc_segment ----

  /** The first aligned address of a segment, and whether size bytes fit from there with one to spare; all in
      unsigned arithmetic. */
  function Aligned(start: nat, align: nat): nat {
    if align == 0 then start else AlignTo(start, align)
  }

  predicate Fits(s: Span, size: nat, align: nat) {
    0 <= s.start && s.start <= Aligned(s.start, align) && Aligned(s.start, align) + size <= s.end
  }

  /** Past the end of the address space the mask leaves zero. */
  lemma AlignWraps(x: nat, a: nat)
    requires IsPow2(a) && x < SIZE_T_RANGE && a < SIZE_T_RANGE && SIZE_T_RANGE <= x + a - 1
    ensures AlignTo(x, a) == 0
  {
    hide And, Neg, Pow2;
    var k: nat :| a == Pow2(k);
    RangeIsPow2();
    if SIZE_T_BITS < k { Pow2Mono(SIZE_T_BITS, k); }
    var y := x + a - 1 - SIZE_T_RANGE;
    WrapOnce(x + a - 1);
    MaskDown(SIZE_T_BITS, y, k);
    SmallRemainder(y, a);
  }

  lemma WrapOnce(x: int)
    requires SIZE_T_RANGE <= x < 2 * SIZE_T_RANGE
    ensures x % SIZE_T_RANGE == x - SIZE_T_RANGE
  {
  }

  lemma SmallRemainder(y: int, a: int)
    requires 0 <= y < a
    ensures y % a == y
  {
  }

  /** The tests of malloc_alloc_segment, which compute in unsigned arithmetic, are the true ones. */
  lemma AlignedMeans(s: Span, align: nat)
    requires SpanOk(s) && (align == 0 || IsPow2(align)) && align < SIZE_T_RANGE
    ensures Aligned(s.start, align) < SIZE_T_RANGE && (align > 0 ==> Aligned(s.start, align) % align == 0)
    ensures s.start <= Aligned(s.start, align) ==> Aligned(s.start, align) - s.start < (if align == 0 then 1 else align)
  {
    hide AlignTo, IsPow2;
    if align > 0 {
      if s.start + align - 1 < SIZE_T_RANGE {
        AlignToMeans(s.start, align);
      } else {
        AlignWraps(s.start, align);
      }
    }
  }

  /** A block of size bytes may lie at x in s, with one byte to spare behind it. */
  predicate RoomAt(s: Span, size: nat, align: nat, x: int) {
    s.start <= x && x % (if align == 0 then 1 else align) == 0 && x + size <= s.end
  }

  /** Of two multiples of a that are less than a from s on, neither is below the other. */
  lemma MultiplesMeet(x: int, y: int, a: int)
    requires 0 < a && x % a == 0 == y % a && x - y < a
    ensures x <= y
  {
    TimesApart(a, x / a, y / a);
  }

  lemma TimesApart(a: int, p: int, q: int)
    requires 0 < a
    ensures p > q ==> a * p - a * q >= a
    ensures p <= q ==> a * p <= a * q
  {
    var d := p - q;
    assert a * p - a * q == a * d;
    if d >= 1 { assert a * d >= a; } else { assert a * d <= 0; }
  }

  /** The tests find the lowest place in s, when there is one. */
  lemma FitsMeans(s: Span, size: nat, align: nat)
    requires SpanOk(s) && (align == 0 || IsPow2(align)) && align < SIZE_T_RANGE
    ensures Fits(s, size, align) <==> exists x :: RoomAt(s, size, align, x)
    ensures Fits(s, size, align) ==>
      RoomAt(s, size, align, Aligned(s.start, align))
      && forall x :: RoomAt(s, size, align, x) ==> Aligned(s.start, align) <= x
  {
    hide AlignTo;
    AlignedMeans(s, align);
    var lowest := Aligned(s.start, align);
    forall x | RoomAt(s, size, align, x) ensures Fits(s, size, align) && lowest <= x {
      if align > 0 {
        if s.start + align - 1 < SIZE_T_RANGE {
          AlignToMeans(s.start, align);
          MultiplesMeet(lowest, x, align);
        } else {
          RangeIsMultiple(align);
          MultiplesMeet(SIZE_T_RANGE, x, align);
        }
      }
    }
    if Fits(s, size, align) { assert RoomAt(s, size, align, lowest); }
  }

  lemma RangeIsMultiple(a: nat)
    requires IsPow2(a) && a < SIZE_T_RANGE
    ensures SIZE_T_RANGE % a == 0
  {
    hide Pow2;
    var k: nat :| a == Pow2(k);
    RangeIsPow2();
    if SIZE_T_BITS < k { Pow2Mono(SIZE_T_BITS, k); }
    Pow2Divides(k, SIZE_T_BITS);
  }

  /** The block is the lowest place in the first segment that has one. */
  ghost predicate FirstPlace(l: seq<Span>, size: nat, align: nat, block: int) {
    exists i {:trigger l[i]} :: 0 <= i < |l| && RoomAt(l[i], size, align, block)
      && (forall x :: RoomAt(l[i], size, align, x) ==> block <= x)
      && forall j, x {:trigger RoomAt(l[j], size, align, x)} :: 0 <= j < i ==> !RoomAt(l[j], size, align, x)
  }

  ghost predicate NoPlace(l: seq<Span>, size: nat, align: nat) {
    forall j, x {:trigger RoomAt(l[j], size, align, x)} :: 0 <= j < |l| ==> !RoomAt(l[j], size, align, x)
  }

  lemma FoundPlace(l: seq<Span>, size: nat, align: nat, i: nat)
    requires AllOk(l) && (align == 0 || IsPow2(align)) && align < SIZE_T_RANGE && i <= |l|
    requires forall j {:trigger l[j]} :: 0 <= j < i ==> !Fits(l[j], size, align)
    ensures i == |l| ==> NoPlace(l, size, align)
    ensures i < |l| && Fits(l[i], size, align) ==> FirstPlace(l, size, align, Aligned(l[i].start, align))
  {
    hide Fits, Aligned, RoomAt, IsPow2;
    forall j, x | 0 <= j < i ensures !RoomAt(l[j], size, align, x) {
      assert SpanOk(l[j]);
      FitsMeans(l[j], size, align);
    }
    if i < |l| {
      assert SpanOk(l[i]);
      FitsMeans(l[i], size, align);
    }
  }

  lemma FitInside(s: Span, size: nat, align: nat, start: int)
    requires SpanOk(s) && Fits(s, size, align) && start == Aligned(s.start, align) && size > 0
    ensures s.start <= start && start + size - 1 < s.end && Holds(s, start)
  {
  }

  /** A block inside one segment has no other segment inside it. */
  lemma {:induction false} BlockHoldsNone(l: seq<Span>, i: nat, a: int, b: int, j: nat)
    requires AllOk(l) && Disjoint(l) && i < |l| && l[i].start <= a <= b < l[i].end
    ensures InsideCount(l, a, b, j) == 0
    decreases |l| - j
  {
    if j < |l| {
      BlockHoldsNone(l, i, a, b, j + 1);
      if j != i { assert l[j].end < l[i].start || l[i].end < l[j].start; }
    }
  }

  /** malloc_alloc_segment: the first segment with room gives up the block. */
  method AllocSegment(m: SegmentList, size: nat, align: nat) returns (found: bool, block: int)
    requires m.Valid() && AllOk(m.List()) && Disjoint(m.List())
    requires 0 < size < SIZE_T_RANGE && (align == 0 || IsPow2(align)) && align < SIZE_T_RANGE
    modifies m, m.segments
    ensures m.Valid() && AllOk(m.List()) && Disjoint(m.List())
    ensures found <==> exists i :: 0 <= i < |old(m.List())| && Fits(old(m.List())[i], size, align)
    ensures !found ==> m.List() == old(m.List()) && NoPlace(old(m.List()), size, align)
    ensures found ==> FirstPlace(old(m.List()), size, align, block)
    ensures found ==> Within(old(m.List()), block, size) && (align > 0 ==> 0 <= block && block % align == 0)
    ensures found ==> forall x :: Covers(m.List(), x) ==> Covers(old(m.List()), x) && !(block <= x < block + size)
    ensures found && |old(m.List())| < NUM_SEGMENTS ==> forall x ::
      Covers(old(m.List()), x) && !(block <= x < block + size) ==> Covers(m.List(), x)
  {
    hide Aligned, Walk, Covers, IsPow2, InsideCount, FirstPlace, NoPlace;
    ghost var l := m.List();
    var i := 0;
    while i < m.nextseg
      invariant m.Valid() && m.List() == l && 0 <= i <= |l|
      invariant forall j {:trigger l[j]} :: 0 <= j < i ==> !Fits(l[j], size, align)
    {
      var s := m.segments[i];
      assert s == l[i] && SpanOk(s);
      AlignedMeans(s, align);
      var start := Aligned(s.start, align);
      if start >= s.start {
        EndTest(start, size, s.end);
        if !((start + size) % SIZE_T_RANGE > s.end || (start + size) % SIZE_T_RANGE < start) {
          FitInside(s, size, align, start);
          FoundPlace(l, size, align, i);
          BlockHoldsNone(l, i, start, start + size - 1, 0);
          m.ExcludeSegment(start, start + size - 1);
          Allocated(l, start, start + size - 1);
          return true, start;
        }
      }
      i := i + 1;
    }
    FoundPlace(l, size, align, |l|);
    return false, 0;
  }

  /** Unsigned overflow of start + size shows in the second test. */
  lemma EndTest(start: nat, size: nat, end: int)
    requires start < SIZE_T_RANGE && 0 < size < SIZE_T_RANGE && end < SIZE_T_RANGE
    ensures !((start + size) % SIZE_T_RANGE > end || (start + size) % SIZE_T_RANGE < start) <==> start + size <= end
  {
    if start + size >= SIZE_T_RANGE { WrapOnce(start + size); }
  }

  ghost predicate Within(l: seq<Span>, block: int, size: nat) {
    exists i :: 0 <= i < |l| && l[i].start <= block && block + size <= l[i].end
  }

  lemma Allocated(l: seq<Span>, a: int, b: int)
    requires AllOk(l) && Disjoint(l) && InsideCount(l, a, b, 0) == 0 && a <= b && |l| <= NUM_SEGMENTS
    ensures var l' := Walk(l, a, b, 0);
      && AllOk(l') && Disjoint(l')
      && (forall x :: Covers(l', x) ==> Covers(l, x) && !(a <= x <= b))
      && (|l| < NUM_SEGMENTS ==> forall x :: Covers(l, x) && !(a <= x <= b) ==> Covers(l', x))
  {
    hide AllOk, Disjoint, Covers, Walk;
    var l' := Walk(l, a, b, 0);
    WalkKeeps(l, a, b, 0);
    WalkClears(l, a, b);
    forall x | Covers(l', x) ensures Covers(l, x) && !(a <= x <= b) { WalkCoversLess(l, a, b, 0, x); }
    if |l| < NUM_SEGMENTS {
      forall x | Covers(l, x) && !(a <= x <= b) ensures Covers(l', x) { WalkCoversRest(l, a, b, 0, x); }
    }
  }
}
