/** Memory, as the bytes it began with and every store made since, in order. */
module Storage {
  import opened ChunkLayout
  import opened BoundaryTags
  import opened BinMaps
  import opened BinIndex
  import opened TreeLinks
  import opened Segments

  /** The name of a word the allocator keeps in memory; a segment record counts as one. */
  datatype Word =
    | HeadOf(x: int)
    | FootOf(x: int)
    | FdOf(x: int)
    | BkOf(x: int)
    | SlotOf(c: Slot)
    | ParentOf(x: int)
    | IndexOf(x: int)
    | RecordOf(ss: int)

  /** Where a tree pointer is kept: child[0] lies four words into a chunk. */
  function SlotAddr(base: int, c: Slot): int {
    match c
    case BinRoot(i) => RootAddr(base, i)
    case ChildOf(x, side) => x + 4 * W + side * W
  }

  /** Where a word lies: a chunk has prev_foot, head, fd, bk, child[2], parent and index. */
  function Addr(base: int, w: Word): int {
    match w
    case HeadOf(x) => x + W
    case FootOf(x) => x
    case FdOf(x) => x + 2 * W
    case BkOf(x) => x + 3 * W
    case SlotOf(c) => SlotAddr(base, c)
    case ParentOf(x) => x + 6 * W
    case IndexOf(x) => x + 7 * W
    case RecordOf(ss) => ss
  }

  /** How many bytes it has: the index has four whatever the size of a pointer, and so have the flags of a record,
      which come after base, size and next. */
  function Width(w: Word): (n: nat)
    ensures 0 < n
  {
    match w
    case IndexOf(_) => 4
    case RecordOf(_) => 3 * W + 4
    case _ => W
  }

  /** sflags in every segment of these spaces. */
  const EXTERN_BIT := 8

  /** What a word may hold. */
  datatype Item = Tag(h: Head) | Number(n: int) | Record(seg: Segment)

  /** Byte k of a number of so many bytes, big end first. */
  function NumberByte(n: int, width: nat, k: int): int
    decreases width
  {
    if k < 0 || width <= k then 0 else if k == width - 1 then n % 256 else NumberByte(n / 256, width - 1, k)
  }

  /** Byte k of what a word of that width holds. */
  function ItemByte(i: Item, width: nat, k: int): int {
    match i
    case Tag(h) => NumberByte(HeadWord(h), width, k)
    case Number(n) => NumberByte(n, width, k)
    case Record(seg) =>
      if k < W then NumberByte(seg.base, W, k) else if k < 2 * W then NumberByte(seg.size, W, k - W)
      else if k < 3 * W then NumberByte(seg.next, W, k - 2 * W) else NumberByte(EXTERN_BIT, 4, k - 3 * W)
  }

  /** A store: of one of the allocator's words, or of n bytes from lo on by memset, memcpy or a client. */
  datatype Event = Stored(w: Word, item: Item) | Filled(lo: int, n: nat, byte: int -> int)

  function From(base: int, e: Event): int { if e.Stored? then Addr(base, e.w) else e.lo }

  function Upto(base: int, e: Event): int { if e.Stored? then Addr(base, e.w) + Width(e.w) else e.lo + e.n }

  /** What store e leaves in byte b, which was was. */
  function AfterEvent(base: int, e: Event, b: int, was: int): int {
    if !(From(base, e) <= b < Upto(base, e)) then was
    else if e.Stored? then ItemByte(e.item, Width(e.w), b - Addr(base, e.w))
    else e.byte(b)
  }

  /** Byte b once all stores of the log are made. */
  function ByteAt(base: int, start: int -> int, log: seq<Event>, b: int): int {
    if |log| == 0 then start(b)
    else AfterEvent(base, log[|log| - 1], b, ByteAt(base, start, log[..|log| - 1], b))
  }

  function BytesOf(base: int, start: int -> int, log: seq<Event>): int -> int {
    b => ByteAt(base, start, log, b)
  }

  /** The number in the n bytes at a, big end first. */
  function NumberAt(data: int -> int, a: int, n: nat): int {
    if n == 0 then 0 else NumberAt(data, a, n - 1) * 256 + data(a + n - 1)
  }

  /** What a store of n bytes leaves. */
  lemma FilledBytes(base: int, start: int -> int, log: seq<Event>, lo: int, n: nat, byte: int -> int)
    ensures var data' := BytesOf(base, start, log + [Filled(lo, n, byte)]);
      forall b {:trigger data'(b)} :: data'(b) == if lo <= b < lo + n then byte(b) else BytesOf(base, start, log)(b)
  {
    var l1 := log + [Filled(lo, n, byte)];
    assert l1[..|l1| - 1] == log;
  }

  class Memory {
    /** Address of the chunk that holds the malloc_state, and the bytes there were before it. */
    const base: int
    const start: int -> int
    var log: seq<Event>

    constructor (b: int, s: int -> int)
      ensures base == b && start == s && log == []
    {
      base := b;
      start := s;
      log := [];
    }

    /** The bytes of memory. */
    function Data(): int -> int
      reads this
    {
      BytesOf(base, start, log)
    }

    method Store(w: Word, item: Item)
      modifies this
      ensures log == old(log) + [Stored(w, item)]
    {
      log := log + [Stored(w, item)];
    }

    method Fill(lo: int, n: nat, byte: int -> int)
      modifies this
      ensures log == old(log) + [Filled(lo, n, byte)]
    {
      log := log + [Filled(lo, n, byte)];
    }
  }

  // ---- what the log tells of a word ----

  /** The item last stored in each word. */
  ghost function Told(log: seq<Event>): map<Word, Item> {
    if log == [] then map[]
    else
      var e := log[|log| - 1];
      var t := Told(log[..|log| - 1]);
      if e.Stored? then t[e.w := e.item] else t
  }

  lemma ToldMore(log: seq<Event>, e: Event)
    ensures Told(log + [e]) == if e.Stored? then Told(log)[e.w := e.item] else Told(log)
  {
    var l := log + [e];
    assert l[..|l| - 1] == log && l[|l| - 1] == e;
  }

  ghost predicate HeadsTold(t: map<Word, Item>, m: map<int, Head>) {
    forall x {:trigger m[x]} {:trigger x in m} {:trigger HeadOf(x)} ::
      (x in m <==> HeadOf(x) in t) && (x in m ==> t[HeadOf(x)] == Tag(m[x]))
  }

  ghost predicate FeetTold(t: map<Word, Item>, m: map<int, int>) {
    forall x {:trigger m[x]} {:trigger x in m} {:trigger FootOf(x)} ::
      (x in m <==> FootOf(x) in t) && (x in m ==> t[FootOf(x)] == Number(m[x]))
  }

  ghost predicate RecordsTold(t: map<Word, Item>, m: map<int, Segment>) {
    forall x {:trigger m[x]} {:trigger x in m} {:trigger RecordOf(x)} ::
      (x in m <==> RecordOf(x) in t) && (x in m ==> t[RecordOf(x)] == Record(m[x]))
  }

  /** The heads, prev_foots and records are those last stored. */
  ghost predicate TagsTold(t: map<Word, Item>, head: map<int, Head>, foot: map<int, int>, records: map<int, Segment>) {
    HeadsTold(t, head) && FeetTold(t, foot) && RecordsTold(t, records)
  }

  lemma HeadNext(t: map<Word, Item>, m: map<int, Head>, w: Word, i: Item)
    requires HeadsTold(t, m) && (w.HeadOf? ==> i.Tag?)
    ensures HeadsTold(t[w := i], if w.HeadOf? then m[w.x := i.h] else m)
  {
  }

  lemma FootNext(t: map<Word, Item>, m: map<int, int>, w: Word, i: Item)
    requires FeetTold(t, m) && (w.FootOf? ==> i.Number?)
    ensures FeetTold(t[w := i], if w.FootOf? then m[w.x := i.n] else m)
  {
  }

  lemma RecordNext(t: map<Word, Item>, m: map<int, Segment>, w: Word, i: Item)
    requires RecordsTold(t, m) && (w.RecordOf? ==> i.Record?)
    ensures RecordsTold(t[w := i], if w.RecordOf? then m[w.ss := i.seg] else m)
  {
  }

  /** They are once one more store is made. */
  lemma TagTold(log: seq<Event>, head: map<int, Head>, foot: map<int, int>, records: map<int, Segment>, w: Word,
                i: Item)
    requires TagsTold(Told(log), head, foot, records)
    requires (w.HeadOf? ==> i.Tag?) && (w.FootOf? ==> i.Number?) && (w.RecordOf? ==> i.Record?)
    ensures TagsTold(Told(log + [Stored(w, i)]), if w.HeadOf? then head[w.x := i.h] else head,
      if w.FootOf? then foot[w.x := i.n] else foot, if w.RecordOf? then records[w.ss := i.seg] else records)
  {
    ToldMore(log, Stored(w, i));
    hide Told, HeadsTold, FeetTold, RecordsTold;
    HeadNext(Told(log), head, w, i);
    FootNext(Told(log), foot, w, i);
    RecordNext(Told(log), records, w, i);
  }

  /** Two stretches of bytes that do not meet. */
  predicate Clear(lo: int, hi: int, lo': int, hi': int) { hi <= lo' || hi' <= lo }

  predicate ClearOf(base: int, e: Event, w: Word) {
    Clear(From(base, e), Upto(base, e), Addr(base, w), Addr(base, w) + Width(w))
  }

  /** Word w was stored, and nothing over it since. */
  ghost predicate Intact(base: int, log: seq<Event>, w: Word) {
    && log != []
    && var e := log[|log| - 1];
    if e.Stored? && e.w == w then true else ClearOf(base, e, w) && Intact(base, log[..|log| - 1], w)
  }

  /** Memory says what an intact word holds. */
  lemma {:induction false} IntactSays(base: int, start: int -> int, log: seq<Event>, w: Word)
    requires Intact(base, log, w)
    ensures w in Told(log)
    ensures forall b {:trigger ByteAt(base, start, log, b)} :: Addr(base, w) <= b < Addr(base, w) + Width(w) ==>
      ByteAt(base, start, log, b) == ItemByte(Told(log)[w], Width(w), b - Addr(base, w))
  {
    hide ItemByte, Addr, Width;
    var e := log[|log| - 1];
    if !(e.Stored? && e.w == w) { IntactSays(base, start, log[..|log| - 1], w); }
  }

  /** The bytes of a number, read back, are as much of it as they have room for. */
  lemma {:induction false} NumberReads(data: int -> int, a: int, n: int, width: nat)
    requires forall k {:trigger NumberByte(n, width, k)} :: 0 <= k < width ==> data(a + k) == NumberByte(n, width, k)
    ensures NumberAt(data, a, width) == n % Pow2(8 * width)
    decreases width
  {
    if width == 0 {
      assert Pow2(0) == 1;
    } else {
      forall k {:trigger NumberByte(n / 256, width - 1, k)} | 0 <= k < width - 1
        ensures data(a + k) == NumberByte(n / 256, width - 1, k) {
        assert NumberByte(n, width, k) == NumberByte(n / 256, width - 1, k);
      }
      NumberReads(data, a, n / 256, width - 1);
      assert data(a + (width - 1)) == NumberByte(n, width, width - 1) == n % 256;
      PowEight(8 * (width - 1));
      ByteStep(n, Pow2(8 * (width - 1)));
    }
  }

  lemma PowEight(i: nat)
    ensures Pow2(i + 8) == Pow2(i) * 256
  {
    assert Pow2(i + 8) == 2 * Pow2(i + 7) == 4 * Pow2(i + 6) == 8 * Pow2(i + 5) == 16 * Pow2(i + 4);
    assert Pow2(i + 4) == 2 * Pow2(i + 3) == 4 * Pow2(i + 2) == 8 * Pow2(i + 1) == 16 * Pow2(i);
  }

  lemma ByteStep(n: int, p: int)
    requires 0 < p
    ensures n / 256 % p * 256 + n % 256 == n % (p * 256)
  {
    var s := n / 256;
    assert n == s / p * (p * 256) + (s % p * 256 + n % 256) by {
      assert s * 256 == (s / p * p + s % p) * 256 == s / p * (p * 256) + s % p * 256;
    }
    assert 0 <= s % p * 256 + n % 256 < p * 256;
    ModUnique(n, p * 256, s / p, s % p * 256 + n % 256);
  }

  /** A size_t read back from the bytes of a head or of a number. */
  lemma WordReads(data: int -> int, a: int, i: Item)
    requires !i.Record?
    requires forall b {:trigger data(b)} :: a <= b < a + W ==> data(b) == ItemByte(i, W, b - a)
    requires var n := if i.Tag? then HeadWord(i.h) else i.n; 0 <= n < SIZE_T_RANGE
    ensures NumberAt(data, a, W) == if i.Tag? then HeadWord(i.h) else i.n
  {
    var n := if i.Tag? then HeadWord(i.h) else i.n;
    RangeIsPow2();
    forall k {:trigger NumberByte(n, W, k)} | 0 <= k < W ensures data(a + k) == NumberByte(n, W, k) { }
    NumberReads(data, a, n, W);
    hide Pow2;
  }

  /** The head at x, read from memory. */
  ghost predicate HeadReads(data: int -> int, head: map<int, Head>, x: int) {
    x in head && ReadHead(NumberAt(data, x + W, W)) == head[x]
  }

  /** A number read from memory, as far as its width goes. */
  ghost predicate ReadsAs(data: int -> int, a: int, width: nat, n: int) {
    NumberAt(data, a, width) == n % Pow2(8 * width)
  }

  // ---- what is stored between two points of a log ----

  /** Word w is stored. */
  ghost predicate WroteIn(l0: seq<Event>, l1: seq<Event>, w: Word) {
    exists i {:trigger l1[i]} :: |l0| <= i < |l1| && l1[i].Stored? && l1[i].w == w
  }

  /** Nothing stored meets w but w itself. */
  ghost predicate OnlyOver(base: int, l0: seq<Event>, l1: seq<Event>, w: Word) {
    forall i {:trigger l1[i]} :: |l0| <= i < |l1| ==> (l1[i].Stored? && l1[i].w == w) || ClearOf(base, l1[i], w)
  }

  lemma {:induction false} IntactStays(base: int, l0: seq<Event>, l1: seq<Event>, w: Word)
    requires l0 <= l1 && OnlyOver(base, l0, l1, w) && (Intact(base, l0, w) || WroteIn(l0, l1, w))
    ensures Intact(base, l1, w)
    decreases |l1|
  {
    hide ClearOf;
    if l0 == l1 {
    } else {
      var l := l1[..|l1| - 1];
      var e := l1[|l1| - 1];
      assert l0 <= l && OnlyOver(base, l0, l, w) by {
        forall i {:trigger l[i]} | |l0| <= i < |l| ensures (l[i].Stored? && l[i].w == w) || ClearOf(base, l[i], w) {
          assert l[i] == l1[i];
        }
      }
      if !(e.Stored? && e.w == w) {
        if WroteIn(l0, l1, w) {
          var i :| |l0| <= i < |l1| && l1[i].Stored? && l1[i].w == w;
          assert l[i] == l1[i];
        }
        IntactStays(base, l0, l, w);
      }
    }
  }

  /** A byte that no store is made over stays as it is. */
  lemma {:induction false} ByteStays(base: int, start: int -> int, l0: seq<Event>, l1: seq<Event>, b: int)
    requires l0 <= l1
    requires forall i {:trigger l1[i]} :: |l0| <= i < |l1| ==> !(From(base, l1[i]) <= b < Upto(base, l1[i]))
    ensures ByteAt(base, start, l1, b) == ByteAt(base, start, l0, b)
    decreases |l1|
  {
    hide From, Upto;
    if l0 == l1 {
    } else {
      var l := l1[..|l1| - 1];
      forall i {:trigger l[i]} | |l0| <= i < |l| ensures !(From(base, l[i]) <= b < Upto(base, l[i])) {
        assert l[i] == l1[i];
      }
      ByteStays(base, start, l0, l, b);
    }
  }
}
