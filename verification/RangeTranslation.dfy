/** find_range and xlate_one: one step of address translation through a bus's ranges property. */
module RangeTranslation {
  import opened AddressCells

  const MAX_SIZE_CELLS := 2

  /** The cells of a ranges entry: child address, parent address, size. */
  datatype Layout = Layout(child: nat, parent: nat, size: nat)

  ghost predicate LayoutOk(l: Layout) {
    l.child <= MAX_ADDR_CELLS && l.parent <= MAX_ADDR_CELLS && l.size <= MAX_SIZE_CELLS
  }

  function EntryCells(l: Layout): nat { l.child + l.parent + l.size }

  /** The fields of the entry at cell i. */
  function ChildBase(ranges: seq<cell>, i: nat, l: Layout): seq<cell>
    requires i + EntryCells(l) <= |ranges| && l.child <= 4
  {
    Padded(ranges[i..i + l.child])
  }

  function ParentBase(ranges: seq<cell>, i: nat, l: Layout): seq<cell>
    requires i + EntryCells(l) <= |ranges| && l.parent <= 4
  {
    Padded(ranges[i + l.child..i + l.child + l.parent])
  }

  function EntrySize(ranges: seq<cell>, i: nat, l: Layout): seq<cell>
    requires i + EntryCells(l) <= |ranges| && l.size <= 4
  {
    Padded(ranges[i + l.child + l.parent..i + EntryCells(l)])
  }

  /** The address lies in the range of the entry at cell i. */
  ghost predicate InEntry(address: int, ranges: seq<cell>, i: nat, l: Layout) {
    LayoutOk(l) && i + EntryCells(l) <= |ranges| &&
    Value(ChildBase(ranges, i, l)) <= address < Value(ChildBase(ranges, i, l)) + Value(EntrySize(ranges, i, l))
  }

  datatype Lookup = At(i: nat) | BadTree | NotFound

  /** Where entry k starts. */
  function Start(k: nat, l: Layout): nat { k * EntryCells(l) }

  lemma NextStart(k: nat, l: Layout)
    ensures Start(k + 1, l) == Start(k, l) + EntryCells(l)
  {
  }

  /** No entry before entry n holds the address. */
  ghost predicate NoneBefore(address: int, ranges: seq<cell>, l: Layout, n: nat) {
    forall k: nat {:trigger Start(k, l)} :: k < n ==> !InEntry(address, ranges, Start(k, l), l)
  }

  /** find_range: the first entry that holds the address; a partial entry at the end is an error. */
  method FindRange(reg: seq<cell>, ranges: seq<cell>, l: Layout, buflen: nat) returns (r: Lookup, ghost k: nat)
    requires |reg| == 4 && LayoutOk(l) && buflen <= |ranges|
    ensures r.At? ==> r.i + EntryCells(l) <= buflen && InEntry(Value(reg), ranges, r.i, l)
    ensures r.At? ==> r.i == Start(k, l) && NoneBefore(Value(reg), ranges, l, k)
    ensures r.NotFound? ==> EntryCells(l) > 0 && buflen == Start(k, l) && NoneBefore(Value(reg), ranges, l, k)
    ensures r.BadTree? ==>
      EntryCells(l) == 0 || (Start(k, l) < buflen < Start(k + 1, l) && NoneBefore(Value(reg), ranges, l, k))
  {
    hide Value, Padded;
    k := 0;
    var nrange := EntryCells(l);
    if nrange <= 0 { return BadTree, 0; }
    var i := 0;
    hide Start;
    FirstStart(l);
    while i < buflen
      invariant i == Start(k, l) && i <= buflen && NoneBefore(Value(reg), ranges, l, k)
    {
      NextStart(k, l);
      if i + nrange > buflen { return BadTree, k; }
      var range_addr := new cell[4];
      var range_size := new cell[4];
      CopyVal(range_addr, ranges[i..i + l.child]);
      CopyVal(range_size, ranges[i + l.child + l.parent..i + l.child + l.parent + l.size]);
      var inside := CompareReg(reg, range_addr[..], range_size[..]);
      if inside { return At(i), k; }
      i := i + nrange;
      k := k + 1;
    }
    return NotFound, k;
  }

  lemma FirstStart(l: Layout)
    ensures Start(0, l) == 0
  {
  }

  datatype Outcome = Done | Malformed | Missing | Untranslatable

  /** The two lowest cells as phys_addr_t. */
  function LowCells(c: seq<cell>): int
    requires |c| == 4
  {
    c[2] * B + c[3]
  }

  lemma LowCellsMean(c: seq<cell>)
    requires |c| == 4
    ensures LowCells(c) == Value(c) % (B * B)
  {
    assert Value(c) == (c[0] * B + c[1]) * (B * B) + LowCells(c);
  }

  /** What a subtraction that reports no borrow left is worth. */
  lemma Difference(before: seq<cell>, sub: seq<cell>, after: seq<cell>)
    requires |before| == 4 == |sub| && |after| == 4 && Value(after) == Value(before) - Value(sub) + Lost(before, sub, 0)
    ensures Value(after) == Value(before) - Value(sub) <==> !BorrowLost(before, sub)
  {
    LostWhen(before, sub, 0);
    hide Tail, Lost, Borrow;
  }

  /** The remaining size of the entry, from the offset of the address in it. */
  method RemainingSize(ranges: seq<cell>, i: nat, l: Layout, offset: seq<cell>) returns (ok: bool, rangesize: int)
    requires LayoutOk(l) && i + EntryCells(l) <= |ranges| && |offset| == 4
    ensures !BorrowLost(EntrySize(ranges, i, l), offset) ==> (ok <==> Value(offset) <= Value(EntrySize(ranges, i, l)))
    ensures ok && !BorrowLost(EntrySize(ranges, i, l), offset) ==>
      rangesize == (Value(EntrySize(ranges, i, l)) - Value(offset)) % (B * B)
  {
    hide Value, Padded, Lost, Borrow, BorrowLost;
    var tmpaddr := new cell[4];
    CopyVal(tmpaddr, ranges[i + l.child + l.parent..i + l.child + l.parent + l.size]);
    ghost var size := tmpaddr[..];
    ok := SubReg(tmpaddr, offset);
    SubExact(size, offset, tmpaddr[..], ok);
    rangesize := 0;
    if ok {
      Difference(size, offset, tmpaddr[..]);
      LowCellsMean(tmpaddr[..]);
      rangesize := tmpaddr[2] * B + tmpaddr[3];
    }
  }

  /** The address moved from the child's base to the parent's, exactly unless a borrow was dropped. */
  ghost predicate Translated(before: seq<cell>, after: seq<cell>, ranges: seq<cell>, i: nat, l: Layout) {
    LayoutOk(l) && i + EntryCells(l) <= |ranges| && |before| == 4 == |after| &&
    (Value(after) == Value(before) - Value(ChildBase(ranges, i, l)) + Value(ParentBase(ranges, i, l)) <==>
      !BorrowLost(before, ChildBase(ranges, i, l)))
  }

  /** The low 64 bits of what is left of the entry behind the address, unless a borrow was dropped. */
  ghost predicate SizeLeft(before: seq<cell>, ranges: seq<cell>, i: nat, l: Layout, rangesize: int) {
    LayoutOk(l) && i + EntryCells(l) <= |ranges| && |before| == 4 &&
    exists rel: seq<cell> ::
      |rel| == 4 && (Value(rel) == Value(before) - Value(ChildBase(ranges, i, l)) <==>
      !BorrowLost(before, ChildBase(ranges, i, l)))
      && (!BorrowLost(EntrySize(ranges, i, l), rel) ==>
         rangesize == (Value(EntrySize(ranges, i, l)) - Value(rel)) % (B * B))
  }

  /** No borrow is dropped on the way: not below the address, nor, when the size is asked for, below the offset. */
  ghost predicate NothingLost(before: seq<cell>, ranges: seq<cell>, i: nat, l: Layout, wantSize: bool) {
    LayoutOk(l) && i + EntryCells(l) <= |ranges| && |before| == 4 && !BorrowLost(before, ChildBase(ranges, i, l)) &&
    (wantSize ==> forall rel: seq<cell> ::
      |rel| == 4 && Value(rel) == Value(before) - Value(ChildBase(ranges, i, l)) ==>
      !BorrowLost(EntrySize(ranges, i, l), rel))
  }

  /** The numbers a parent's cells can hold. */
  function ParentTop(l: Layout): int
    requires l.parent <= 4
  {
    Above(4 - l.parent)
  }

  /** The parent base and the offset add up within the parent's cells. */
  ghost predicate SumFits(address: int, ranges: seq<cell>, i: nat, l: Layout) {
    LayoutOk(l) && i + EntryCells(l) <= |ranges| && ParentTop(l) > 0 &&
    (address - Value(ChildBase(ranges, i, l))) % ParentTop(l) + Value(ParentBase(ranges, i, l)) < ParentTop(l)
  }

  lemma OffsetLow(rel: seq<cell>, l: Layout)
    requires |rel| == 4 && l.parent <= 4
    ensures ParentTop(l) > 0 && Tail(rel, 4 - l.parent) == Value(rel) % ParentTop(l)
  {
    TailMod(rel, 4 - l.parent);
    TailBound(rel, 4 - l.parent);
  }

  /** xlate_one from the subtraction on: to an offset in the entry, and up to the parent's addresses. */
  method ToParent(addr: array<cell>, ranges: seq<cell>, i: nat, l: Layout, wantSize: bool)
    returns (ok: bool, rangesize: int)
    requires addr.Length == 4 && LayoutOk(l) && i + EntryCells(l) <= |ranges| && InEntry(Value(addr[..]), ranges, i, l)
    modifies addr
    ensures ok ==> Translated(old(addr[..]), addr[..], ranges, i, l)
    ensures ok && wantSize ==> SizeLeft(old(addr[..]), ranges, i, l, rangesize)
    ensures NothingLost(old(addr[..]), ranges, i, l, wantSize) ==> (ok <==> SumFits(Value(old(addr[..])), ranges, i, l))
  {
    hide Value, Padded, Lost, Borrow, BorrowLost, Above, Tail;
    ghost var before := addr[..];
    rangesize := 0;
    var tmpaddr := new cell[4];
    CopyVal(tmpaddr, ranges[i..i + l.child]);
    ok := SubReg(addr, tmpaddr[..]);
    SubExact(before, tmpaddr[..], addr[..], ok);
    if !ok { return; }
    ghost var rel := addr[..];
    Difference(before, tmpaddr[..], rel);
    if wantSize {
      ok, rangesize := RemainingSize(ranges, i, l, addr[..]);
      if !ok { return; }
    }
    CopyVal(tmpaddr, ranges[i + l.child..i + l.child + l.parent]);
    PaddedTail(ranges[i + l.child..i + l.child + l.parent]);
    OffsetLow(rel, l);
    ok := AddReg(addr, tmpaddr[..], l.parent);
  }

  /** The parent's range, its size read in sizeCells cells, runs past the parent's cells. */
  ghost predicate RunsOver(ranges: seq<cell>, i: nat, l: Layout, sizeCells: nat) {
    && LayoutOk(l) && i + EntryCells(l) <= |ranges|
    && sizeCells <= 4 && i + l.child + l.parent + sizeCells <= |ranges| && ParentTop(l) > 0
    && Value(ParentBase(ranges, i, l))
       + Value(Padded(ranges[i + l.child + l.parent..i + l.child + l.parent + sizeCells])) % ParentTop(l)
       >= ParentTop(l)
  }

  /** The last check of xlate_one, with the parent's number of size cells: a range that wraps is no translation. */
  method ParentWraps(ranges: seq<cell>, i: nat, l: Layout, parentSize: nat) returns (wraps: bool)
    requires LayoutOk(l) && parentSize <= MAX_SIZE_CELLS && i + l.child + l.parent + parentSize <= |ranges|
      && i + EntryCells(l) <= |ranges|
    ensures wraps <==> RunsOver(ranges, i, l, parentSize)
  {
    hide Value, Padded, Above, Tail;
    var tmpaddr, tmpaddr2 := new cell[4], new cell[4];
    CopyVal(tmpaddr, ranges[i + l.child..i + l.child + l.parent]);
    PaddedTail(ranges[i + l.child..i + l.child + l.parent]);
    CopyVal(tmpaddr2, ranges[i + l.child + l.parent..i + l.child + l.parent + parentSize]);
    OffsetLow(tmpaddr2[..], l);
    var ok := AddReg(tmpaddr, tmpaddr2[..], l.parent);
    wraps := !ok;
  }

  /** Entry k is the first that holds the address. */
  ghost predicate Found(address: int, ranges: seq<cell>, l: Layout, buflen: nat, k: nat) {
    Start(k, l) + EntryCells(l) <= buflen <= |ranges| && InEntry(address, ranges, Start(k, l), l)
      && NoneBefore(address, ranges, l, k)
  }

  /** xlate_one of the ranges property.  behind is what memory holds after it: with more size cells than the
      property's own, the last check reads on there. */
  method XlateOne(addr: array<cell>, ranges: seq<cell>, behind: seq<cell>, l: Layout, parentSize: nat, wantSize: bool)
    returns (r: Outcome, rangesize: int, ghost k: nat)
    requires addr.Length == 4 && LayoutOk(l) && parentSize <= MAX_SIZE_CELLS == |behind|
    modifies addr
    ensures r.Missing? ==>
      EntryCells(l) > 0 && |ranges| == Start(k, l) && NoneBefore(Value(old(addr[..])), ranges, l, k)
    ensures r.Done? || r.Untranslatable? ==> Found(Value(old(addr[..])), ranges, l, |ranges|, k)
    ensures r.Done? || r.Untranslatable? ==> Translated(old(addr[..]), addr[..], ranges, Start(k, l), l)
    ensures r.Done? && wantSize ==> SizeLeft(old(addr[..]), ranges, Start(k, l), l, rangesize)
    ensures r.Malformed? ==>
      EntryCells(l) == 0 || (Start(k, l) < |ranges| < Start(k + 1, l) && NoneBefore(Value(old(addr[..])), ranges, l, k))
        || Found(Value(old(addr[..])), ranges, l, |ranges|, k)
    ensures (Found(Value(old(addr[..])), ranges, l, |ranges|, k)
      && NothingLost(old(addr[..]), ranges, Start(k, l), l, wantSize)) ==>
      r == if !SumFits(Value(old(addr[..])), ranges, Start(k, l), l) then Malformed
        else if RunsOver(ranges + behind, Start(k, l), l, parentSize) then Untranslatable else Done
  {
    hide Value, Start, InEntry, NoneBefore, Translated, SizeLeft, NothingLost, SumFits, RunsOver;
    rangesize := 0;
    var offset, ok;
    offset, k := FindRange(addr[..], ranges, l, |ranges|);
    NextStart(k, l);
    match offset {
      case BadTree => r := Malformed; EmptyEntry(Value(addr[..]), ranges, l, |ranges|, k);
      case NotFound => r := Missing;
      case At(i) =>
        ok, rangesize := ToParent(addr, ranges, i, l, wantSize);
        if !ok {
          r := Malformed;
        } else {
          var wraps := ParentWraps(ranges + behind, i, l, parentSize);
          r := if wraps then Untranslatable else Done;
        }
    }
  }

  /** Entries of no cells hold no address. */
  lemma EmptyEntry(address: int, ranges: seq<cell>, l: Layout, buflen: nat, k: nat)
    ensures EntryCells(l) == 0 ==> !Found(address, ranges, l, buflen, k)
  {
  }

  /** No cell of the base is all ones: nothing is dropped, whatever the address. */
  lemma NoOnesNothingLost(before: seq<cell>, base: seq<cell>)
    requires |before| == 4 == |base| && forall i :: 0 <= i < 4 ==> base[i] != B - 1
    ensures !BorrowLost(before, base)
  {
  }

  /** A base with an all-ones cell below an address of the next cell: the borrow is dropped and 2^64 too much is
      left. */
  lemma OnesLoseBorrow(before: seq<cell>, base: seq<cell>)
    requires before == [0, 1, 0, 0] && base == [0, 0, B - 1, 1]
    ensures Value(base) < Value(before) && BorrowLost(before, base) && Lost(before, base, 0) == B * B
  {
    assert Drops(before, base, 2);
    assert Tail(before, 3) == 0 && Tail(base, 3) == 1;
    assert Borrow(before, base, 3) == 1 && Borrow(before, base, 2) == 0 && Borrow(before, base, 1) == 0;
    assert Lost(before, base, 3) == 0 && Lost(before, base, 2) == B * B;
  }

  // ---- the last check, with the parent's number of size cells ----

  /** The cells the last check takes the size from. */
  predicate Reads(i: nat, l: Layout, sizeCells: nat, j: nat) {
    i + l.child + l.parent <= j < i + l.child + l.parent + sizeCells
  }

  /** They all lie in the property exactly when it goes on that far. */
  lemma ReadsInside(i: nat, l: Layout, sizeCells: nat, len: nat)
    requires i + EntryCells(l) <= len
    ensures (forall j: nat :: Reads(i, l, sizeCells, j) ==> j < len) <==> i + l.child + l.parent + sizeCells <= len
  {
    if i + l.child + l.parent + sizeCells > len {
      assert Reads(i, l, sizeCells, i + l.child + l.parent + sizeCells - 1);
    }
  }

  /** Then what lies behind the property has no say. */
  lemma InsideDecides(ranges: seq<cell>, behind: seq<cell>, other: seq<cell>, i: nat, l: Layout, sizeCells: nat)
    requires LayoutOk(l) && i + EntryCells(l) <= |ranges| && i + l.child + l.parent + sizeCells <= |ranges|
    ensures RunsOver(ranges + behind, i, l, sizeCells) <==> RunsOver(ranges + other, i, l, sizeCells)
  {
    var n := i + l.child + l.parent;
    assert (ranges + behind)[i + l.child..n] == (ranges + other)[i + l.child..n];
    assert (ranges + behind)[n..n + sizeCells] == (ranges + other)[n..n + sizeCells];
    hide Value, Padded, ParentTop;
  }

  /** For the last entry it may have: one entry, one size cell against two, and two answers for the same property. */
  lemma BehindDecides(ranges: seq<cell>, i: nat, l: Layout)
    requires ranges == [0, 0xFFFF_F000, 0x1000] && i == 0 && l == Layout(1, 1, 1)
    ensures !RunsOver(ranges + [0, 0], i, l, 2) && RunsOver(ranges + [0x1000, 0], i, l, 2)
  {
    OneCell(0xFFFF_F000);
    TwoCells(0x1000, 0);
    TwoCells(0x1000, 0x1000);
    assert (ranges + [0, 0])[1..2] == [0xFFFF_F000] == (ranges + [0x1000, 0])[1..2];
    assert (ranges + [0, 0])[2..4] == [0x1000, 0] && (ranges + [0x1000, 0])[2..4] == [0x1000, 0x1000];
    hide Value, Padded;
  }

  lemma OneCell(c: cell)
    ensures Value(Padded([c])) == c
  {
    ZeroFront(Padded([c]), 0, 3);
  }

  lemma TwoCells(c: cell, d: cell)
    ensures Value(Padded([c, d])) == c * B + d
  {
    ZeroFront(Padded([c, d]), 0, 2);
  }

  /** The size as read in sizeCells cells. */
  function SizeRead(ranges: seq<cell>, i: nat, l: Layout, sizeCells: nat): int
    requires sizeCells <= MAX_SIZE_CELLS && i + l.child + l.parent + sizeCells <= |ranges|
  {
    Value(Padded(ranges[i + l.child + l.parent..i + l.child + l.parent + sizeCells]))
  }

  /** What the readings come to. */
  lemma SizesRead(ranges: seq<cell>, i: nat, l: Layout)
    requires i + l.child + l.parent + 2 <= |ranges|
    ensures var n := i + l.child + l.parent;
      && SizeRead(ranges, i, l, 0) == 0
      && SizeRead(ranges, i, l, 1) == ranges[n]
      && SizeRead(ranges, i, l, 2) == ranges[n] * B + ranges[n + 1]
  {
    hide Value, Padded;
    var n := i + l.child + l.parent;
    OneCell(ranges[n]);
    TwoCells(ranges[n], ranges[n + 1]);
    NoCell();
    assert ranges[n..n] == [];
    assert ranges[n..n + 1] == [ranges[n]];
    assert ranges[n..n + 2] == [ranges[n], ranges[n + 1]];
  }

  lemma NoCell()
    ensures Value(Padded([])) == 0
  {
    ZeroFront(Padded([]), 0, 4);
  }

  /** The check agrees with the one that reads the entry's own size exactly when the two numbers fall on the
      same side of the room above the parent's base. */
  lemma CheckAgrees(ranges: seq<cell>, i: nat, l: Layout, sizeCells: nat)
    requires LayoutOk(l) && sizeCells <= MAX_SIZE_CELLS && i + EntryCells(l) <= |ranges|
      && i + l.child + l.parent + sizeCells <= |ranges|
    ensures ParentTop(l) > 0
    ensures var room := ParentTop(l) - Value(ParentBase(ranges, i, l));
      (RunsOver(ranges, i, l, sizeCells) <==> RunsOver(ranges, i, l, l.size)) <==>
      (SizeRead(ranges, i, l, sizeCells) % ParentTop(l) < room <==>
        SizeRead(ranges, i, l, l.size) % ParentTop(l) < room)
  {
    OffsetLow([0, 0, 0, 0], l);
    hide Value, Padded, ParentTop;
  }

  /** Where they disagree: read in one cell the range wraps, read in two it does not. */
  lemma CheckDiffers(ranges: seq<cell>, i: nat, l: Layout)
    requires ranges == [0, 0xFFFF_F000, 0x1000, 0] && i == 0 && l == Layout(1, 1, 1)
    ensures RunsOver(ranges, i, l, 1) && !RunsOver(ranges, i, l, 2)
  {
    OneCell(0xFFFF_F000);
    OneCell(0x1000);
    TwoCells(0x1000, 0);
    assert |ranges| == 4 && ranges[1] == 0xFFFF_F000 && ranges[2] == 0x1000 && ranges[3] == 0;
    assert ranges[1..2] == [ranges[1]];
    assert ranges[2..3] == [ranges[2]];
    assert ranges[2..4] == [ranges[2], ranges[3]];
    hide Value, Padded;
  }
}
